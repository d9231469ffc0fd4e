/** The promotion registry: rows of raw.pipelines and the stored best pipeline must describe the same
    class (cycle/run.py, bin/run_promote_task.py, bin/rebuild_best_pipeline.py, bin/quarantine_leaks.py,
    bin/freeze_base.py). SHA-256 is treated as injective: a hash stands for the text it was taken of. */
module Registry {
  import opened Names
  import opened Python
  import opened Harness
  import opened Materialize
  import opened Freeze

  /** A row of raw.pipelines, in run_ts order. */
  datatype Row = Row(
    code: Source,
    materialized: Source,
    materializedSha: Option<Source>,
    pipelineSha: Option<Source>,
    invalid: bool)

  /** A base class and what it was built from (row numbers, oldest first), when that is known. */
  datatype Ticket = Ticket(base: Source, basis: Option<seq<nat>>)

  /** A promote task after each of its reads (the guard's download, the guard's query, and its own download) and
      after its upload, when its row is inserted but not committed. vouched is the class the guard accepted, when
      something vouched for it. */
  datatype Task =
    | Read(seen: Option<Source>)
    | Passed(vouched: Option<Ticket>)
    | Ready(ticket: Ticket)
    | Uploaded(ticket: Ticket, code: Source, merged: Source)

  /** tasks and pending are operations in progress; basis records, for the proofs, which rows each row's class
      was built from. */
  datatype State = State(
    rows: seq<Row>,
    blob: Option<Source>,
    tasks: map<nat, Task>,
    pending: Option<Ticket>,
    basis: seq<Option<seq<nat>>>)

  const INITIAL: State := State([], None, map[], None, [])

  // ---- queries

  function LatestValid(rows: seq<Row>): (r: Option<nat>)
    ensures r.Some? ==> r.value < |rows| && !rows[r.value].invalid
                        && forall i :: r.value < i < |rows| ==> rows[i].invalid
    ensures r.None? ==> forall i :: 0 <= i < |rows| ==> rows[i].invalid
  {
    if rows == [] then None
    else if !rows[|rows| - 1].invalid then Some(|rows| - 1)
    else LatestValid(rows[..|rows| - 1])
  }

  /** coalesce(materialized_sha256, pipeline_sha256) */
  function TrustedSha(row: Row): Option<Source> {
    if row.materializedSha.Some? then row.materializedSha else row.pipelineSha
  }

  function Trusted(s: State): Option<Source> {
    match LatestValid(s.rows)
    case None => None
    case Some(r) => TrustedSha(s.rows[r])
  }

  /** _baseline_source_guard: passes without a blob, without a trusted hash, or when they match. */
  predicate GuardAccepts(seen: Option<Source>, trusted: Option<Source>) {
    seen.None? || trusted.None? || seen == trusted
  }

  /** The guard would pass if nothing happened between its two reads. */
  predicate GuardPasses(s: State) {
    GuardAccepts(s.blob, Trusted(s))
  }

  function ValidUpTo(rows: seq<Row>, n: nat): (ids: seq<nat>)
    requires n <= |rows|
    ensures forall k :: 0 <= k < |ids| ==> ids[k] < n && !rows[ids[k]].invalid
    ensures forall j, k :: 0 <= j < k < |ids| ==> ids[j] < ids[k]
    ensures forall i :: 0 <= i < n && !rows[i].invalid ==> i in ids
  {
    if n == 0 then []
    else if rows[n - 1].invalid then ValidUpTo(rows, n - 1)
    else ValidUpTo(rows, n - 1) + [n - 1]
  }

  function ValidIds(rows: seq<Row>): seq<nat> {
    ValidUpTo(rows, |rows|)
  }

  function CodesAt(rows: seq<Row>, ids: seq<nat>): seq<Source>
    requires forall k :: 0 <= k < |ids| ==> ids[k] < |rows|
  {
    seq(|ids|, k requires 0 <= k < |ids| => rows[ids[k]].code)
  }

  // ---- steps

  /** Stored: the upload went through. Rejected: it raised; wrote says whether the bytes landed anyway. */
  datatype Upload = Stored | Rejected(wrote: bool)

  datatype Event =
    | ReadBlob(task: nat)
    | Query(task: nat)
    | Download(task: nat)
    | UploadMerged(task: nat, code: Source, upload: Upload)
    | Commit(task: nat)
    | Abort(task: nat)
    | Quarantine(row: nat)
    | RebuildUpload(upload: Upload)
    | RebuildRecord
    | RebuildCrash
    | FreezeLatest(params: map<string, int>, roundTrips: bool, writes: FreezeWrites)

  /** How a freeze goes: whether the frozen class reproduces the stored score, and whether the first upload, the
      row update and the restoring upload take effect. */
  datatype FreezeWrites = FreezeWrites(reproduces: bool, uploaded: bool, updated: bool, restored: bool)

  function AfterUpload(blob: Option<Source>, text: Source, upload: Upload): Option<Source> {
    if upload.Stored? || upload.wrote then Some(text) else blob
  }

  /** What stands behind a blob the guard accepts: nothing yet, the latest valid row, or nobody. */
  function Vouch(s: State, seen: Option<Source>): Option<Ticket> {
    if seen.None? then Some(Ticket(EMPTY_SOURCE, Some([])))
    else if Trusted(s).None? || |s.basis| != |s.rows| then None
    else Some(Ticket(seen.value, s.basis[LatestValid(s.rows).value]))
  }

  function BlobClass(s: State): Source {
    if s.blob.None? then EMPTY_SOURCE else s.blob.value
  }

  /** The base the task gets after the guard: known to be built from rows only if it is what was vouched for. */
  function Downloaded(s: State, vouched: Option<Ticket>): Ticket {
    if vouched.Some? && vouched.value.base == BlobClass(s) then vouched.value else Ticket(BlobClass(s), None)
  }

  /** What a task gets when nothing happens between its three reads. */
  function ReadBase(s: State): Ticket {
    Downloaded(s, Vouch(s, s.blob))
  }

  function StepQuery(s: State, task: nat): State {
    if task in s.tasks && s.tasks[task].Read? then
      if GuardAccepts(s.tasks[task].seen, Trusted(s)) then s.(tasks := s.tasks[task := Passed(Vouch(s, s.tasks[task].seen))])
      else s.(tasks := s.tasks - {task})
    else s
  }

  function StepDownload(s: State, task: nat): State {
    if task in s.tasks && s.tasks[task].Passed? then s.(tasks := s.tasks[task := Ready(Downloaded(s, s.tasks[task].vouched))])
    else s
  }

  predicate IsReady(s: State, task: nat) {
    task in s.tasks && s.tasks[task].Ready?
  }

  predicate IsUploaded(s: State, task: nat) {
    task in s.tasks && s.tasks[task].Uploaded?
  }

  /** The transaction of _promote_winner up to its commit: the merged class is uploaded, and a failure rolls the
      insert back. */
  function StepUpload(builtins: set<string>, s: State, task: nat, code: Source, upload: Upload): State
    requires IsReady(s, task)
  {
    var ticket := s.tasks[task].ticket;
    match Merge(builtins, ticket.base, code)
    case Failure(_) => s.(tasks := s.tasks - {task})
    case Success(merged) =>
      if upload.Rejected? then s.(tasks := s.tasks - {task}, blob := AfterUpload(s.blob, merged, upload))
      else s.(tasks := s.tasks[task := Uploaded(ticket, code, merged)], blob := Some(merged))
  }

  /** The commit keeps the row, whatever the blob holds by then. */
  function StepCommit(s: State, task: nat): State
    requires IsUploaded(s, task)
  {
    var t := s.tasks[task];
    State(s.rows + [Row(t.code, t.merged, Some(t.merged), Some(t.merged), false)],
          s.blob, s.tasks - {task}, s.pending,
          s.basis + [NextBasis(t.ticket.basis, |s.rows|)])
  }

  function NextBasis(basis: Option<seq<nat>>, row: nat): Option<seq<nat>> {
    if basis.Some? then Some(basis.value + [row]) else None
  }

  /** rebuild, first half: replay the valid rows and upload the result. */
  function StepRebuildUpload(builtins: set<string>, s: State, upload: Upload): State {
    var ids := ValidIds(s.rows);
    match Replay(builtins, CodesAt(s.rows, ids))
    case Failure(_) => s
    case Success(best) =>
      if ids == [] || s.pending.Some? then s
      else if upload.Rejected? then s.(blob := AfterUpload(s.blob, best, upload))
      else s.(blob := Some(best), pending := Some(Ticket(best, Some(ids))))
  }

  /** rebuild, second half: record the result on whichever row is the latest valid one by then. */
  function StepRebuildRecord(s: State): State {
    if s.pending.None? then s
    else
      match LatestValid(s.rows)
      case None => s.(pending := None)
      case Some(r) =>
        var best := s.pending.value;
        s.(rows := s.rows[r := s.rows[r].(materialized := best.base, materializedSha := Some(best.base))],
           basis := if r < |s.basis| then s.basis[r := best.basis] else s.basis,
           pending := None)
  }

  /** freeze_latest, run while no promotion or rebuild is in progress. */
  function StepFreeze(builtins: set<string>, s: State, params: map<string, int>, roundTrips: bool, writes: FreezeWrites): State {
    if s.tasks != map[] || s.pending.Some? || LatestValid(s.rows).None? || params == map[] then s
    else
      var r := LatestValid(s.rows).value;
      var row := s.rows[r];
      if IsFrozenTo(row.materialized, params) then s
      else
        match Merge(builtins, row.materialized, WithFrozen(FREEZE_ONLY, Some(params), roundTrips))
        case Failure(_) => s
        case Success(frozen) => StoreFrozen(s, r, WithFrozen(row.code, Some(params), roundTrips), frozen, writes)
  }

  /** Evaluate again, upload, read back, update the row; when the update fails, put the row's class back. */
  function StoreFrozen(s: State, r: nat, code: Source, frozen: Source, writes: FreezeWrites): State
    requires r < |s.rows|
  {
    if !writes.reproduces || (!writes.uploaded && s.blob != Some(frozen)) then s
    else if !writes.updated then s.(blob := Some(if writes.restored then s.rows[r].materialized else frozen))
    else s.(rows := s.rows[r := Row(code, frozen, Some(frozen), Some(frozen), false)],
            blob := Some(frozen),
            basis := if r < |s.basis| && !Refreezable(s, r) then s.basis[r := None] else s.basis)
  }

  /** _is_frozen */
  predicate IsFrozenTo(src: Source, params: map<string, int>) {
    Defines(src, ParamCandidates) && src.members[HookName(ParamCandidates)] == FrozenMethod(params)
  }

  /** Row r's class was built with r's own code last, and that code carries no earlier freeze. */
  predicate Refreezable(s: State, r: nat)
    requires r < |s.rows| && r < |s.basis|
  {
    s.rows[r].code.frozen == [] && s.basis[r].Some? && |s.basis[r].value| > 0 && s.basis[r].value[|s.basis[r].value| - 1] == r
  }

  function Step(builtins: set<string>, s: State, e: Event): State {
    match e
    case ReadBlob(task) => s.(tasks := s.tasks[task := Read(s.blob)])
    case Query(task) => StepQuery(s, task)
    case Download(task) => StepDownload(s, task)
    case UploadMerged(task, code, upload) => if IsReady(s, task) then StepUpload(builtins, s, task, code, upload) else s
    case Commit(task) => if IsUploaded(s, task) then StepCommit(s, task) else s
    case Abort(task) => s.(tasks := s.tasks - {task})
    case Quarantine(i) => if i < |s.rows| then s.(rows := s.rows[i := s.rows[i].(invalid := true)]) else s
    case RebuildUpload(upload) => StepRebuildUpload(builtins, s, upload)
    case RebuildRecord => StepRebuildRecord(s)
    case RebuildCrash => s.(pending := None)
    case FreezeLatest(params, rt, writes) => StepFreeze(builtins, s, params, rt, writes)
  }

  function Run(builtins: set<string>, events: seq<Event>): State {
    if events == [] then INITIAL
    else Step(builtins, Run(builtins, events[..|events| - 1]), events[|events| - 1])
  }

  // ---- invariant

  predicate Ascending(ids: seq<nat>) {
    forall j, k :: 0 <= j < k < |ids| ==> ids[j] < ids[k]
  }

  /** src is the replay of the rows numbered in basis. */
  ghost predicate BuiltFrom(builtins: set<string>, rows: seq<Row>, src: Source, basis: Option<seq<nat>>) {
    basis.Some? ==>
      && Ascending(basis.value)
      && (forall k :: 0 <= k < |basis.value| ==> basis.value[k] < |rows|)
      && Replay(builtins, CodesAt(rows, basis.value)) == Success(src)
  }

  /** A merge result: nothing left to override or freeze, and no undefined name. */
  predicate Plain(builtins: set<string>, src: Source) {
    src.overrides == {} && src.frozen == [] && UndefinedMembers(builtins, src) == {}
  }

  /** Row i is hashed as it is stored, built from what basis says, and from no valid later row. */
  ghost predicate RowOk(builtins: set<string>, s: State, i: nat)
    requires i < |s.rows| && |s.basis| == |s.rows|
  {
    var row := s.rows[i];
    && row.materializedSha == Some(row.materialized)
    && Plain(builtins, row.materialized)
    && BuiltFrom(builtins, s.rows, row.materialized, s.basis[i])
    && (s.basis[i].Some? ==> forall k :: 0 <= k < |s.basis[i].value| && s.basis[i].value[k] > i ==> s.rows[s.basis[i].value[k]].invalid)
  }

  ghost predicate TaskOk(builtins: set<string>, rows: seq<Row>, task: Task) {
    match task
    case Read(_) => true
    case Passed(vouched) => vouched.Some? ==> BuiltFrom(builtins, rows, vouched.value.base, vouched.value.basis)
    case Ready(ticket) => BuiltFrom(builtins, rows, ticket.base, ticket.basis)
    case Uploaded(ticket, code, merged) =>
      BuiltFrom(builtins, rows, ticket.base, ticket.basis) && Merge(builtins, ticket.base, code) == Success(merged)
  }

  ghost predicate Inv(builtins: set<string>, s: State) {
    && |s.basis| == |s.rows|
    && (s.blob.None? ==> s.rows == [] && forall t :: t in s.tasks ==> !s.tasks[t].Uploaded?)
    && (s.blob.Some? ==> Plain(builtins, s.blob.value))
    && (forall i :: 0 <= i < |s.rows| && !s.rows[i].invalid ==> RowOk(builtins, s, i))
    && (forall t :: t in s.tasks ==> TaskOk(builtins, s.rows, s.tasks[t]))
    && (s.pending.Some? ==> Plain(builtins, s.pending.value.base)
                            && BuiltFrom(builtins, s.rows, s.pending.value.base, s.pending.value.basis))
  }

  // ---- the steps keep it

  lemma SameCodes(builtins: set<string>, rows: seq<Row>, rows': seq<Row>, src: Source, basis: Option<seq<nat>>)
    requires BuiltFrom(builtins, rows, src, basis)
    requires |rows| <= |rows'|
    requires basis.Some? ==> forall k :: 0 <= k < |basis.value| ==> rows'[basis.value[k]].code == rows[basis.value[k]].code
    ensures BuiltFrom(builtins, rows', src, basis)
  {
    if basis.Some? {
      assert CodesAt(rows, basis.value) == CodesAt(rows', basis.value);
    }
  }

  lemma SameTask(builtins: set<string>, rows: seq<Row>, rows': seq<Row>, task: Task)
    requires TaskOk(builtins, rows, task)
    requires |rows| <= |rows'| && forall i :: 0 <= i < |rows| ==> rows'[i].code == rows[i].code
    ensures TaskOk(builtins, rows', task)
  {
    match task
    case Read(_) =>
    case Passed(vouched) => if vouched.Some? { SameCodes(builtins, rows, rows', vouched.value.base, vouched.value.basis); }
    case Ready(ticket) => SameCodes(builtins, rows, rows', ticket.base, ticket.basis);
    case Uploaded(ticket, _, _) => SameCodes(builtins, rows, rows', ticket.base, ticket.basis);
  }

  /** Rows keep their code and only become invalid: whatever was built from them stays so. */
  lemma CarriesOver(builtins: set<string>, s: State, s': State)
    requires Inv(builtins, s)
    requires |s.rows| <= |s'.rows| == |s'.basis|
    requires forall i :: 0 <= i < |s.rows| ==> s'.rows[i].code == s.rows[i].code && (s.rows[i].invalid ==> s'.rows[i].invalid)
    ensures forall t :: t in s.tasks ==> TaskOk(builtins, s'.rows, s.tasks[t])
    ensures s.pending.Some? ==> BuiltFrom(builtins, s'.rows, s.pending.value.base, s.pending.value.basis)
    ensures forall i :: 0 <= i < |s.rows| && !s'.rows[i].invalid && s'.basis[i] == s.basis[i]
              && s'.rows[i].materialized == s.rows[i].materialized && s'.rows[i].materializedSha == s.rows[i].materializedSha
              ==> RowOk(builtins, s', i)
  {
    forall t | t in s.tasks ensures TaskOk(builtins, s'.rows, s.tasks[t]) {
      SameTask(builtins, s.rows, s'.rows, s.tasks[t]);
    }
    if s.pending.Some? {
      SameCodes(builtins, s.rows, s'.rows, s.pending.value.base, s.pending.value.basis);
    }
    forall i | 0 <= i < |s.rows| && !s'.rows[i].invalid && s'.basis[i] == s.basis[i]
              && s'.rows[i].materialized == s.rows[i].materialized && s'.rows[i].materializedSha == s.rows[i].materializedSha
      ensures RowOk(builtins, s', i)
    {
      assert RowOk(builtins, s, i);
      SameCodes(builtins, s.rows, s'.rows, s.rows[i].materialized, s.basis[i]);
    }
  }

  lemma MergedIsPlain(builtins: set<string>, base: Source, code: Source)
    requires Merge(builtins, base, code).Success?
    ensures Plain(builtins, Merge(builtins, base, code).source)
  {}

  lemma UploadKeeps(builtins: set<string>, s: State, task: nat, code: Source, upload: Upload)
    requires Inv(builtins, s) && IsReady(s, task)
    ensures Inv(builtins, StepUpload(builtins, s, task, code, upload))
  {
    var m := Merge(builtins, s.tasks[task].ticket.base, code);
    assert TaskOk(builtins, s.rows, s.tasks[task]);
    if m.Success? { MergedIsPlain(builtins, s.tasks[task].ticket.base, code); }
    CarriesOver(builtins, s, StepUpload(builtins, s, task, code, upload));
  }

  lemma CommitKeeps(builtins: set<string>, s: State, task: nat)
    requires Inv(builtins, s) && IsUploaded(s, task)
    ensures Inv(builtins, StepCommit(s, task))
  {
    var s' := StepCommit(s, task);
    CarriesOver(builtins, s, s');
    NewRowOk(builtins, s, task);
    forall i | 0 <= i < |s'.rows| && !s'.rows[i].invalid ensures RowOk(builtins, s', i) {
      if i < |s.rows| { assert s'.rows[i] == s.rows[i] && s'.basis[i] == s.basis[i]; }
    }
  }

  lemma CodesAtNext(rows: seq<Row>, row: Row, ids: seq<nat>)
    requires forall k :: 0 <= k < |ids| ==> ids[k] < |rows|
    ensures CodesAt(rows + [row], ids + [|rows|]) == CodesAt(rows, ids) + [row.code]
  {}

  lemma ReplayNext(builtins: set<string>, codes: seq<Source>, code: Source)
    requires Replay(builtins, codes).Success?
    ensures Replay(builtins, codes + [code]) == Merge(builtins, Replay(builtins, codes).source, code)
  {
    assert (codes + [code])[..|codes|] == codes;
  }

  /** A class merged onto one built from known rows is built from those and its own row. */
  lemma NextBuilt(builtins: set<string>, rows: seq<Row>, row: Row, ticket: Ticket, merged: Source)
    requires BuiltFrom(builtins, rows, ticket.base, ticket.basis) && Merge(builtins, ticket.base, row.code) == Success(merged)
    ensures BuiltFrom(builtins, rows + [row], merged, NextBasis(ticket.basis, |rows|))
  {
    if ticket.basis.Some? {
      CodesAtNext(rows, row, ticket.basis.value);
      ReplayNext(builtins, CodesAt(rows, ticket.basis.value), row.code);
    }
  }

  lemma NewRowOk(builtins: set<string>, s: State, task: nat)
    requires Inv(builtins, s) && IsUploaded(s, task)
    ensures RowOk(builtins, StepCommit(s, task), |s.rows|)
  {
    var t := s.tasks[task];
    assert TaskOk(builtins, s.rows, t);
    MergedIsPlain(builtins, t.ticket.base, t.code);
    NextBuilt(builtins, s.rows, StepCommit(s, task).rows[|s.rows|], t.ticket, t.merged);
  }

  lemma TasksKeep(builtins: set<string>, s: State, tasks: map<nat, Task>)
    requires Inv(builtins, s)
    requires forall t :: t in tasks ==> TaskOk(builtins, s.rows, tasks[t]) && (tasks[t].Uploaded? ==> s.blob.Some?)
    ensures Inv(builtins, s.(tasks := tasks))
  {
    CarriesOver(builtins, s, s.(tasks := tasks));
  }

  /** What the guard accepts with something vouching for it is built from what Vouch says. */
  lemma VouchedIsBuilt(builtins: set<string>, s: State, seen: Option<Source>)
    requires Inv(builtins, s) && GuardAccepts(seen, Trusted(s))
    ensures TaskOk(builtins, s.rows, Passed(Vouch(s, seen)))
  {
    if seen.Some? && Trusted(s).Some? {
      assert RowOk(builtins, s, LatestValid(s.rows).value);
    } else {
      assert CodesAt(s.rows, []) == [];
    }
  }

  lemma ReadsKeep(builtins: set<string>, s: State, e: Event)
    requires Inv(builtins, s) && (e.ReadBlob? || e.Query? || e.Download?)
    ensures Inv(builtins, Step(builtins, s, e))
  {
    match e
    case ReadBlob(task) => TasksKeep(builtins, s, s.tasks[task := Read(s.blob)]);
    case Query(task) =>
      if task in s.tasks && s.tasks[task].Read? {
        var seen := s.tasks[task].seen;
        if GuardAccepts(seen, Trusted(s)) {
          VouchedIsBuilt(builtins, s, seen);
          TasksKeep(builtins, s, s.tasks[task := Passed(Vouch(s, seen))]);
        } else {
          TasksKeep(builtins, s, s.tasks - {task});
        }
      }
    case Download(task) =>
      if task in s.tasks && s.tasks[task].Passed? {
        assert TaskOk(builtins, s.rows, s.tasks[task]);
        TasksKeep(builtins, s, s.tasks[task := Ready(Downloaded(s, s.tasks[task].vouched))]);
      }
  }

  lemma QuarantineKeeps(builtins: set<string>, s: State, i: nat)
    requires Inv(builtins, s)
    ensures Inv(builtins, Step(builtins, s, Quarantine(i)))
  {
    if i < |s.rows| {
      CarriesOver(builtins, s, Step(builtins, s, Quarantine(i)));
    }
  }

  lemma ReplayIsPlain(builtins: set<string>, codes: seq<Source>)
    requires Replay(builtins, codes).Success?
    ensures Plain(builtins, Replay(builtins, codes).source)
  {
    if codes != [] {
      MergedIsPlain(builtins, Replay(builtins, codes[..|codes| - 1]).source, codes[|codes| - 1]);
    }
  }

  lemma RebuildUploadKeeps(builtins: set<string>, s: State, upload: Upload)
    requires Inv(builtins, s)
    ensures Inv(builtins, StepRebuildUpload(builtins, s, upload))
  {
    var ids := ValidIds(s.rows);
    var s' := StepRebuildUpload(builtins, s, upload);
    CarriesOver(builtins, s, s');
    if Replay(builtins, CodesAt(s.rows, ids)).Success? {
      ReplayIsPlain(builtins, CodesAt(s.rows, ids));
    }
  }

  lemma RebuildRecordKeeps(builtins: set<string>, s: State)
    requires Inv(builtins, s)
    ensures Inv(builtins, StepRebuildRecord(s))
  {
    var s' := StepRebuildRecord(s);
    CarriesOver(builtins, s, s');
    if s.pending.Some? && LatestValid(s.rows).Some? {
      var r := LatestValid(s.rows).value;
      assert RowOk(builtins, s', r);
      forall i | 0 <= i < |s'.rows| && !s'.rows[i].invalid ensures RowOk(builtins, s', i) {
        if i != r { assert s'.rows[i] == s.rows[i] && s'.basis[i] == s.basis[i]; }
      }
    }
  }

  // ---- freezing the latest row

  lemma PlainCore(builtins: set<string>, src: Source, params: map<string, int>, roundTrips: bool)
    requires Plain(builtins, src)
    ensures var patch := WithFrozen(FREEZE_ONLY, Some(params), roundTrips);
            CoreSource(src, patch) == src && RealCollisions(src.helpers, patch.helpers) == {}
  {
    FreezeOnlyAddsNothing(src, WithFrozen(FREEZE_ONLY, Some(params), roundTrips));
  }

  /** A replay whose last code gains a freeze mark ends in the frozen class. */
  lemma FrozenReplay(builtins: set<string>, init: seq<Source>, code: Source, params: map<string, int>, roundTrips: bool)
    requires code.frozen == [] && params != map[]
    requires Replay(builtins, init + [code]).Success?
    ensures var src := Replay(builtins, init + [code]).source;
            var patch := WithFrozen(FREEZE_ONLY, Some(params), roundTrips);
            && Merge(builtins, src, patch).Success?
            && Replay(builtins, init + [WithFrozen(code, Some(params), roundTrips)]) == Merge(builtins, src, patch)
  {
    var codes, marked := init + [code], init + [WithFrozen(code, Some(params), roundTrips)];
    assert codes[..|codes| - 1] == init && marked[..|marked| - 1] == init;
    assert codes[|codes| - 1] == code && marked[|marked| - 1] == WithFrozen(code, Some(params), roundTrips);
    var base := Replay(builtins, init).source;
    if roundTrips {
      FreezeAfterEqualsFreezeWhileMerging(builtins, base, code, params);
    } else {
      MergedIsPlain(builtins, base, code);
      PlainCore(builtins, Merge(builtins, base, code).source, params, false);
    }
  }

  lemma CodesAtLast(rows: seq<Row>, rows': seq<Row>, init: seq<nat>, r: nat)
    requires r < |rows| == |rows'| && Ascending(init + [r])
    requires forall i :: 0 <= i < |rows| && i != r ==> rows'[i] == rows[i]
    ensures forall k :: 0 <= k < |init| ==> init[k] < r
    ensures CodesAt(rows, init + [r]) == CodesAt(rows, init) + [rows[r].code]
    ensures CodesAt(rows', init + [r]) == CodesAt(rows, init) + [rows'[r].code]
  {
    var ids := init + [r];
    forall k | 0 <= k < |init| ensures init[k] < r {
      assert ids[k] < ids[|init|];
    }
    assert forall k :: 0 <= k < |init| ==> CodesAt(rows', ids)[k] == rows[init[k]].code;
  }

  lemma FreezeRow(builtins: set<string>, s: State, params: map<string, int>, roundTrips: bool, s': State)
    requires Inv(builtins, s) && LatestValid(s.rows).Some? && params != map[]
    requires Refreezable(s, LatestValid(s.rows).value)
    requires |s'.rows| == |s.rows| && forall i :: 0 <= i < |s.rows| && i != LatestValid(s.rows).value ==> s'.rows[i] == s.rows[i]
    requires s'.rows[LatestValid(s.rows).value].code == WithFrozen(s.rows[LatestValid(s.rows).value].code, Some(params), roundTrips)
    ensures var r := LatestValid(s.rows).value;
            var m := Merge(builtins, s.rows[r].materialized, WithFrozen(FREEZE_ONLY, Some(params), roundTrips));
            m.Success? ==> BuiltFrom(builtins, s'.rows, m.source, s.basis[r])
  {
    var r := LatestValid(s.rows).value;
    assert RowOk(builtins, s, r);
    var ids := s.basis[r].value;
    var init := ids[..|ids| - 1];
    assert ids == init + [r];
    CodesAtLast(s.rows, s'.rows, init, r);
    FrozenReplay(builtins, CodesAt(s.rows, init), s.rows[r].code, params, roundTrips);
  }

  /** Other valid rows are not built from the latest one. */
  lemma OthersUnmoved(builtins: set<string>, s: State, s': State, i: nat)
    requires Inv(builtins, s) && LatestValid(s.rows).Some?
    requires |s'.rows| == |s.rows| == |s'.basis| && forall j :: 0 <= j < |s.rows| && j != LatestValid(s.rows).value ==> s'.rows[j] == s.rows[j]
    requires !s'.rows[LatestValid(s.rows).value].invalid
    requires i < |s.rows| && i != LatestValid(s.rows).value && !s.rows[i].invalid && s'.basis[i] == s.basis[i]
    ensures RowOk(builtins, s', i)
  {
    var r := LatestValid(s.rows).value;
    assert RowOk(builtins, s, i) && i < r;
    if s.basis[i].Some? {
      var ids := s.basis[i].value;
      forall k | 0 <= k < |ids| ensures ids[k] != r {
        assert ids[k] > i ==> s.rows[ids[k]].invalid;
      }
    }
    SameCodes(builtins, s.rows, s'.rows, s.rows[i].materialized, s.basis[i]);
  }

  /** A freeze that stops before the row's update keeps all but the blob. */
  lemma UnrecordedFreezeKeeps(builtins: set<string>, s: State, blob: Option<Source>)
    requires Inv(builtins, s) && blob.Some? && Plain(builtins, blob.value)
    ensures Inv(builtins, s.(blob := blob))
  {
    CarriesOver(builtins, s, s.(blob := blob));
  }

  /** The row of a freeze that goes through. */
  lemma FrozenRowOk(builtins: set<string>, s: State, s': State, params: map<string, int>, roundTrips: bool, frozen: Source)
    requires Inv(builtins, s) && LatestValid(s.rows).Some? && params != map[]
    requires Merge(builtins, s.rows[LatestValid(s.rows).value].materialized, WithFrozen(FREEZE_ONLY, Some(params), roundTrips)) == Success(frozen)
    requires var r := LatestValid(s.rows).value;
             && s'.rows == s.rows[r := Row(WithFrozen(s.rows[r].code, Some(params), roundTrips), frozen, Some(frozen), Some(frozen), false)]
             && s'.basis == (if Refreezable(s, r) then s.basis else s.basis[r := None])
    ensures RowOk(builtins, s', LatestValid(s.rows).value)
  {
    var r := LatestValid(s.rows).value;
    assert RowOk(builtins, s, r);
    MergedIsPlain(builtins, s.rows[r].materialized, WithFrozen(FREEZE_ONLY, Some(params), roundTrips));
    if Refreezable(s, r) {
      FreezeRow(builtins, s, params, roundTrips, s');
    }
  }

  lemma RecordedFreezeKeeps(builtins: set<string>, s: State, s': State)
    requires Inv(builtins, s) && LatestValid(s.rows).Some? && s.tasks == map[] && s.pending.None?
    requires |s'.rows| == |s.rows| == |s'.basis| && s'.tasks == map[] && s'.pending.None?
    requires s'.blob.Some? && Plain(builtins, s'.blob.value)
    requires var r := LatestValid(s.rows).value;
             && (forall i :: 0 <= i < |s.rows| && i != r ==> s'.rows[i] == s.rows[i] && s'.basis[i] == s.basis[i])
             && !s'.rows[r].invalid && RowOk(builtins, s', r)
    ensures Inv(builtins, s')
  {
    forall i | 0 <= i < |s'.rows| && !s'.rows[i].invalid ensures RowOk(builtins, s', i) {
      if i != LatestValid(s.rows).value { OthersUnmoved(builtins, s, s', i); }
    }
  }

  lemma StoreFrozenKeeps(builtins: set<string>, s: State, params: map<string, int>, roundTrips: bool, frozen: Source, writes: FreezeWrites)
    requires Inv(builtins, s) && LatestValid(s.rows).Some? && params != map[] && s.tasks == map[] && s.pending.None?
    requires Merge(builtins, s.rows[LatestValid(s.rows).value].materialized, WithFrozen(FREEZE_ONLY, Some(params), roundTrips)) == Success(frozen)
    ensures var r := LatestValid(s.rows).value;
            Inv(builtins, StoreFrozen(s, r, WithFrozen(s.rows[r].code, Some(params), roundTrips), frozen, writes))
  {
    var r := LatestValid(s.rows).value;
    var code := WithFrozen(s.rows[r].code, Some(params), roundTrips);
    var s' := StoreFrozen(s, r, code, frozen, writes);
    assert RowOk(builtins, s, r);
    MergedIsPlain(builtins, s.rows[r].materialized, WithFrozen(FREEZE_ONLY, Some(params), roundTrips));
    if !writes.reproduces || (!writes.uploaded && s.blob != Some(frozen)) {
    } else if !writes.updated {
      UnrecordedFreezeKeeps(builtins, s, s'.blob);
    } else {
      FrozenRowOk(builtins, s, s', params, roundTrips, frozen);
      RecordedFreezeKeeps(builtins, s, s');
    }
  }

  lemma FreezeKeeps(builtins: set<string>, s: State, params: map<string, int>, roundTrips: bool, writes: FreezeWrites)
    requires Inv(builtins, s)
    ensures Inv(builtins, StepFreeze(builtins, s, params, roundTrips, writes))
  {
    if StepFreeze(builtins, s, params, roundTrips, writes) != s {
      var m := Merge(builtins, s.rows[LatestValid(s.rows).value].materialized, WithFrozen(FREEZE_ONLY, Some(params), roundTrips));
      StoreFrozenKeeps(builtins, s, params, roundTrips, m.source, writes);
    }
  }

  lemma StepKeeps(builtins: set<string>, s: State, e: Event)
    requires Inv(builtins, s)
    ensures Inv(builtins, Step(builtins, s, e))
  {
    match e
    case ReadBlob(_) => ReadsKeep(builtins, s, e);
    case Query(_) => ReadsKeep(builtins, s, e);
    case Download(_) => ReadsKeep(builtins, s, e);
    case UploadMerged(task, code, upload) => if IsReady(s, task) { UploadKeeps(builtins, s, task, code, upload); }
    case Commit(task) => if IsUploaded(s, task) { CommitKeeps(builtins, s, task); }
    case Abort(task) => TasksKeep(builtins, s, s.tasks - {task});
    case Quarantine(i) => QuarantineKeeps(builtins, s, i);
    case RebuildUpload(upload) => RebuildUploadKeeps(builtins, s, upload);
    case RebuildRecord => RebuildRecordKeeps(builtins, s);
    case RebuildCrash => CarriesOver(builtins, s, Step(builtins, s, e));
    case FreezeLatest(params, rt, writes) => FreezeKeeps(builtins, s, params, rt, writes);
  }

  lemma {:induction false} RunKeeps(builtins: set<string>, events: seq<Event>)
    ensures Inv(builtins, Run(builtins, events))
  {
    if events != [] {
      RunKeeps(builtins, events[..|events| - 1]);
      StepKeeps(builtins, Run(builtins, events[..|events| - 1]), events[|events| - 1]);
    }
  }
}
