/** What the registry's guard is worth, and what it does not see (cycle/run.py, bin/run_promote_task.py,
    bin/rebuild_best_pipeline.py, bin/quarantine_leaks.py, bin/freeze_base.py). */
module Guard {
  import opened Names
  import opened Python
  import opened Harness
  import opened Materialize
  import opened Freeze
  import opened Registry

  /** Whatever has interleaved: when the guard accepts the blob it read some time ago, and a trusted hash vouches
      for it, that blob is the class stored on the latest valid row, and the replay of the rows that class was
      built from. */
  lemma GuardedBlobIsLatestSnapshot(builtins: set<string>, events: seq<Event>, seen: Option<Source>)
    requires var s := Registry.Run(builtins, events); GuardAccepts(seen, Trusted(s)) && seen.Some? && Trusted(s).Some?
    ensures var s := Registry.Run(builtins, events);
            var r := LatestValid(s.rows).value;
            && |s.basis| == |s.rows|
            && seen == Some(s.rows[r].materialized)
            && BuiltFrom(builtins, s.rows, seen.value, s.basis[r])
  {
    RunKeeps(builtins, events);
    var s := Registry.Run(builtins, events);
    assert RowOk(builtins, s, LatestValid(s.rows).value);
  }

  // ---- runs that leave a task alone

  function RunFrom(builtins: set<string>, s: State, events: seq<Event>): State {
    if events == [] then s
    else Step(builtins, RunFrom(builtins, s, events[..|events| - 1]), events[|events| - 1])
  }

  predicate Touches(e: Event, task: nat) {
    match e
    case ReadBlob(t) => t == task
    case Query(t) => t == task
    case Download(t) => t == task
    case UploadMerged(t, _, _) => t == task
    case Commit(t) => t == task
    case Abort(t) => t == task
    case _ => false
  }

  predicate LeavesAlone(events: seq<Event>, task: nat) {
    forall i :: 0 <= i < |events| ==> !Touches(events[i], task)
  }

  lemma StepKeepsTask(builtins: set<string>, s: State, e: Event, task: nat)
    requires task in s.tasks && !Touches(e, task)
    ensures task in Step(builtins, s, e).tasks && Step(builtins, s, e).tasks[task] == s.tasks[task]
  {}

  /** Nothing deletes a stored blob. */
  lemma StepKeepsBlob(builtins: set<string>, s: State, e: Event)
    requires s.blob.Some?
    ensures Step(builtins, s, e).blob.Some?
  {}

  lemma {:induction false} TaskStays(builtins: set<string>, s: State, events: seq<Event>, task: nat)
    requires Inv(builtins, s) && task in s.tasks && LeavesAlone(events, task)
    ensures var s' := RunFrom(builtins, s, events);
            && Inv(builtins, s') && task in s'.tasks && s'.tasks[task] == s.tasks[task]
            && (s.blob.Some? ==> s'.blob.Some?)
  {
    if events != [] {
      var init, e := events[..|events| - 1], events[|events| - 1];
      TaskStays(builtins, s, init, task);
      var before := RunFrom(builtins, s, init);
      StepKeeps(builtins, before, e);
      StepKeepsTask(builtins, before, e, task);
      if s.blob.Some? { StepKeepsBlob(builtins, before, e); }
    }
  }

  // ---- what a promotion stores

  /** The transaction of _promote_winner with nothing between its upload and its commit. */
  function Finish(builtins: set<string>, s: State, task: nat, code: Source, upload: Upload): State {
    Step(builtins, Step(builtins, s, UploadMerged(task, code, upload)), Commit(task))
  }

  /** A transaction that goes through. */
  lemma FinishIs(builtins: set<string>, s: State, task: nat, code: Source, merged: Source)
    requires IsReady(s, task) && Merge(builtins, s.tasks[task].ticket.base, code) == Success(merged)
    ensures Finish(builtins, s, task, code, Stored) ==
            State(s.rows + [Row(code, merged, Some(merged), Some(merged), false)], Some(merged), s.tasks - {task},
                  s.pending, s.basis + [NextBasis(s.tasks[task].ticket.basis, |s.rows|)])
  {
    var t := Uploaded(s.tasks[task].ticket, code, merged);
    assert s.tasks[task := t] - {task} == s.tasks - {task};
  }

  /** The promotion stores m as the new latest valid row and as the blob, and the guard passes afterwards. */
  predicate Stores(builtins: set<string>, s: State, task: nat, code: Source, m: Merged) {
    var s' := Finish(builtins, s, task, code, Stored);
    && |s'.rows| == |s'.basis| == |s.rows| + 1 && s'.rows[..|s.rows|] == s.rows
    && LatestValid(s'.rows) == Some(|s.rows|)
    && Success(s'.rows[|s.rows|].materialized) == m
    && s'.blob == Some(s'.rows[|s.rows|].materialized) && Trusted(s') == s'.blob
  }

  lemma FinishStores(builtins: set<string>, s: State, task: nat, code: Source)
    requires IsReady(s, task) && |s.basis| == |s.rows|
    requires Merge(builtins, s.tasks[task].ticket.base, code).Success?
    ensures Stores(builtins, s, task, code, Merge(builtins, s.tasks[task].ticket.base, code))
    ensures var s' := Finish(builtins, s, task, code, Stored);
            && s'.tasks == s.tasks - {task}
            && s'.basis[|s.rows|] == NextBasis(s.tasks[task].ticket.basis, |s.rows|)
  {
    FinishIs(builtins, s, task, code, Merge(builtins, s.tasks[task].ticket.base, code).source);
  }

  /** Between upload and commit anything may happen. The row is the merge all the same, and the latest one as rows
      are kept in the order of their commits; but the guard passes afterwards exactly when the blob is still the
      uploaded class. */
  lemma CommitAgreesExactly(builtins: set<string>, s: State, task: nat, code: Source, between: seq<Event>)
    requires Inv(builtins, s) && IsReady(s, task) && LeavesAlone(between, task)
    requires Merge(builtins, s.tasks[task].ticket.base, code).Success?
    ensures var merged := Merge(builtins, s.tasks[task].ticket.base, code).source;
            var before := RunFrom(builtins, Step(builtins, s, UploadMerged(task, code, Stored)), between);
            var s' := Step(builtins, before, Commit(task));
            && s'.rows == before.rows + [Row(code, merged, Some(merged), Some(merged), false)]
            && LatestValid(s'.rows) == Some(|before.rows|) && s'.blob == before.blob
            && (GuardPasses(s') <==> before.blob == Some(merged))
  {
    UploadKeeps(builtins, s, task, code, Stored);
    TaskStays(builtins, Step(builtins, s, UploadMerged(task, code, Stored)), between, task);
  }

  /** Two transactions that overlap, b's upload falling between a's upload and a's commit: the guard passes
      afterwards exactly when both uploaded the same text. */
  lemma CrossedTransactions(builtins: set<string>, s: State, a: nat, b: nat, codeA: Source, codeB: Source)
    requires a != b && IsReady(s, a) && IsReady(s, b)
    requires Merge(builtins, s.tasks[a].ticket.base, codeA).Success? && Merge(builtins, s.tasks[b].ticket.base, codeB).Success?
    ensures var s' := Step(builtins, Finish(builtins, Step(builtins, s, UploadMerged(a, codeA, Stored)), b, codeB, Stored), Commit(a));
            && |s'.rows| == |s.rows| + 2
            && (GuardPasses(s') <==> Merge(builtins, s.tasks[a].ticket.base, codeA) == Merge(builtins, s.tasks[b].ticket.base, codeB))
  {
    var uploaded := Step(builtins, s, UploadMerged(a, codeA, Stored));
    assert uploaded.rows == s.rows && uploaded.tasks[b] == s.tasks[b];
    FinishIs(builtins, uploaded, b, codeB, Merge(builtins, s.tasks[b].ticket.base, codeB).source);
  }

  /** An empty patch on a merged class changes nothing. */
  lemma EmptyPatchAddsNothing(builtins: set<string>, src: Source)
    requires Plain(builtins, src)
    ensures Merge(builtins, src, EMPTY_SOURCE) == Success(src)
  {
    FreezeOnlyAddsNothing(src, EMPTY_SOURCE);
  }

  /** The state right before the transaction: guard query, then window, then download, then between. */
  function BeforeFinish(builtins: set<string>, s: State, task: nat, window: seq<Event>, between: seq<Event>): State {
    RunFrom(builtins, Step(builtins, RunFrom(builtins, Step(builtins, s, Query(task)), window), Download(task)), between)
  }

  function AtDownload(builtins: set<string>, s: State, task: nat, window: seq<Event>): State {
    RunFrom(builtins, Step(builtins, s, Query(task)), window)
  }

  /** A task whose guard found its blob vouched for. */
  predicate Accepted(s: State, task: nat) {
    && task in s.tasks && s.tasks[task].Read? && s.tasks[task].seen.Some?
    && Trusted(s).Some? && GuardAccepts(s.tasks[task].seen, Trusted(s))
  }

  lemma DownloadsBlob(builtins: set<string>, s: State, task: nat, window: seq<Event>, between: seq<Event>)
    requires Inv(builtins, s) && Accepted(s, task) && LeavesAlone(window, task) && LeavesAlone(between, task)
    ensures var s2, s4 := AtDownload(builtins, s, task, window), BeforeFinish(builtins, s, task, window, between);
            && Inv(builtins, s2) && s2.blob.Some? && Inv(builtins, s4) && IsReady(s4, task)
            && s4.tasks[task].ticket.base == s2.blob.value
  {
    var s1 := Step(builtins, s, Query(task));
    ReadsKeep(builtins, s, Query(task));
    TaskStays(builtins, s1, window, task);
    var s2 := RunFrom(builtins, s1, window);
    ReadsKeep(builtins, s2, Download(task));
    TaskStays(builtins, Step(builtins, s2, Download(task)), between, task);
  }

  /** A promotion stores the merge onto the class its guard trusted, for every code, exactly when the blob at its
      own download is still the one its guard read. What happens after the download does not matter. */
  lemma SnapshotIsMergeOfTrustedExactly(builtins: set<string>, s: State, task: nat, window: seq<Event>, between: seq<Event>)
    requires Inv(builtins, s) && Accepted(s, task) && LeavesAlone(window, task) && LeavesAlone(between, task)
    ensures var trusted := s.rows[LatestValid(s.rows).value].materialized;
            && s.tasks[task].seen == Some(trusted)
            && ((forall code :: Merge(builtins, trusted, code).Success? ==>
                   Stores(builtins, BeforeFinish(builtins, s, task, window, between), task, code, Merge(builtins, trusted, code)))
                <==> AtDownload(builtins, s, task, window).blob == Some(trusted))
  {
    var trusted := s.rows[LatestValid(s.rows).value].materialized;
    assert RowOk(builtins, s, LatestValid(s.rows).value);
    DownloadsBlob(builtins, s, task, window, between);
    var blob := AtDownload(builtins, s, task, window).blob.value;
    var s4 := BeforeFinish(builtins, s, task, window, between);
    if blob == trusted {
      forall code | Merge(builtins, trusted, code).Success? ensures Stores(builtins, s4, task, code, Merge(builtins, trusted, code)) {
        FinishStores(builtins, s4, task, code);
      }
    } else {
      EmptyPatchAddsNothing(builtins, trusted);
      EmptyPatchAddsNothing(builtins, blob);
      FinishStores(builtins, s4, task, EMPTY_SOURCE);
      assert !Stores(builtins, s4, task, EMPTY_SOURCE, Merge(builtins, trusted, EMPTY_SOURCE));
    }
  }

  /** Such a window exists: another task's failed upload leaves an unregistered class between guard and download,
      and the next row is the merge onto it, built from nobody knows what, with the guard passing afterwards. */
  lemma UploadBetweenGuardAndDownload(builtins: set<string>, s: State, task: nat, other: nat, codeOther: Source, code: Source)
    requires Inv(builtins, s) && Accepted(s, task) && IsReady(s, other)
    requires Merge(builtins, s.tasks[other].ticket.base, codeOther).Success?
    requires var x := Merge(builtins, s.tasks[other].ticket.base, codeOther).source;
             s.tasks[task].seen != Some(x) && Merge(builtins, x, code).Success?
    ensures var x := Merge(builtins, s.tasks[other].ticket.base, codeOther).source;
            var before := BeforeFinish(builtins, s, task, [UploadMerged(other, codeOther, Rejected(true))], []);
            && before.rows == s.rows
            && Stores(builtins, before, task, code, Merge(builtins, x, code))
            && Finish(builtins, before, task, code, Stored).basis[|s.rows|].None?
  {
    var failing := UploadMerged(other, codeOther, Rejected(true));
    OneEvent(builtins, Step(builtins, s, Query(task)), failing);
    DownloadsBlob(builtins, s, task, [failing], []);
    FailingLeaves(builtins, s, task, other, codeOther);
    FinishStores(builtins, BeforeFinish(builtins, s, task, [failing], []), task, code);
  }

  lemma OneEvent(builtins: set<string>, s: State, e: Event)
    ensures RunFrom(builtins, s, [e]) == Step(builtins, s, e)
  {
    assert [e][..0] == [];
  }

  lemma FailingLeaves(builtins: set<string>, s: State, task: nat, other: nat, codeOther: Source)
    requires Inv(builtins, s) && Accepted(s, task) && IsReady(s, other)
    requires Merge(builtins, s.tasks[other].ticket.base, codeOther).Success?
    ensures var x := Merge(builtins, s.tasks[other].ticket.base, codeOther).source;
            var atDownload := Step(builtins, Step(builtins, s, Query(task)), UploadMerged(other, codeOther, Rejected(true)));
            var ready := Step(builtins, atDownload, Download(task));
            && atDownload.blob == Some(x) && ready.rows == s.rows && ready.basis == s.basis
            && IsReady(ready, task)
            && (s.tasks[task].seen != Some(x) ==> ready.tasks[task].ticket == Ticket(x, None))
  {
    var asked := Step(builtins, s, Query(task));
    assert asked.tasks[task] == Passed(Vouch(s, s.tasks[task].seen)) && asked.tasks[other] == s.tasks[other];
  }

  /** A guard that found no blob passes, whatever has been registered since: two first promotions that overlap. The
      task then merges onto the class the other one has stored meanwhile, which nothing has vouched for. */
  lemma ColdReadAlwaysPasses(builtins: set<string>, s: State, task: nat)
    requires task in s.tasks && s.tasks[task] == Read(None)
    ensures var ready := Step(builtins, Step(builtins, s, Query(task)), Download(task));
            && IsReady(ready, task) && ready.rows == s.rows && ready.blob == s.blob
            && ready.tasks[task].ticket.base == BlobClass(s)
            && (s.blob.Some? && s.blob.value != EMPTY_SOURCE ==> ready.tasks[task].ticket.basis.None?)
  {}

  // ---- after a failed upload

  /** Events that may write the blob or change which row is the latest valid one, or what it holds. */
  predicate MayRepair(s: State, e: Event) {
    match e
    case UploadMerged(task, _, upload) => IsReady(s, task) && (upload.Stored? || upload.wrote)
    case Commit(task) => IsUploaded(s, task)
    case Quarantine(i) => LatestValid(s.rows) == Some(i)
    case RebuildUpload(_) => true
    case RebuildRecord => s.pending.Some?
    case FreezeLatest(_, _, _) => true
    case _ => false
  }

  ghost predicate NothingRepairs(builtins: set<string>, s: State, events: seq<Event>) {
    forall i :: 0 <= i < |events| ==> !MayRepair(RunFrom(builtins, s, events[..i]), events[i])
  }

  lemma NothingRepairsInit(builtins: set<string>, s: State, events: seq<Event>)
    requires events != [] && NothingRepairs(builtins, s, events)
    ensures NothingRepairs(builtins, s, events[..|events| - 1])
    ensures !MayRepair(RunFrom(builtins, s, events[..|events| - 1]), events[|events| - 1])
  {
    var init := events[..|events| - 1];
    forall i | 0 <= i < |init| ensures !MayRepair(RunFrom(builtins, s, init[..i]), init[i]) {
      assert init[..i] == events[..i];
    }
  }

  lemma QuietStep(builtins: set<string>, s: State, e: Event)
    requires !MayRepair(s, e)
    ensures Step(builtins, s, e).blob == s.blob && Trusted(Step(builtins, s, e)) == Trusted(s)
  {
    if e.Quarantine? && e.row < |s.rows| { OtherRowQuarantined(s.rows, e.row); }
  }

  lemma {:induction false} OtherRowQuarantined(rows: seq<Row>, i: nat)
    requires i < |rows| && LatestValid(rows) != Some(i)
    ensures LatestValid(rows[i := rows[i].(invalid := true)]) == LatestValid(rows)
  {
    var rows' := rows[i := rows[i].(invalid := true)];
    if i == |rows| - 1 {
      assert rows'[..|rows| - 1] == rows[..|rows| - 1];
    } else if rows[|rows| - 1].invalid {
      assert rows'[..|rows| - 1] == rows[..|rows| - 1][i := rows[i].(invalid := true)];
      OtherRowQuarantined(rows[..|rows| - 1], i);
    }
  }

  /** A task that starts now, or has read the refused blob, gets no further in such a step. */
  lemma RefusedStep(builtins: set<string>, s: State, e: Event, t: nat)
    requires !GuardPasses(s) && !MayRepair(s, e) && t in Step(builtins, s, e).tasks
    requires t in s.tasks ==> s.tasks[t] == Read(s.blob)
    ensures Step(builtins, s, e).tasks[t] == Read(s.blob)
  {}

  /** While the guard would refuse and nothing repairs it, no task that starts then gets past its guard. */
  lemma {:induction false} NoTaskGetsThrough(builtins: set<string>, s: State, events: seq<Event>)
    requires !GuardPasses(s) && NothingRepairs(builtins, s, events)
    ensures var s' := RunFrom(builtins, s, events);
            && s'.blob == s.blob && Trusted(s') == Trusted(s) && !GuardPasses(s')
            && forall t :: t in s'.tasks && t !in s.tasks ==> s'.tasks[t] == Read(s.blob)
  {
    if events != [] {
      var init, e := events[..|events| - 1], events[|events| - 1];
      NothingRepairsInit(builtins, s, events);
      NoTaskGetsThrough(builtins, s, init);
      var before := RunFrom(builtins, s, init);
      QuietStep(builtins, before, e);
      forall t | t in Step(builtins, before, e).tasks && t !in s.tasks ensures Step(builtins, before, e).tasks[t] == Read(s.blob) {
        RefusedStep(builtins, before, e, t);
      }
    }
  }

  /** Whatever happens from s on without a repair, no task that starts then gets past its guard. */
  ghost predicate Shut(builtins: set<string>, s: State) {
    forall events, t :: NothingRepairs(builtins, s, events) && t in RunFrom(builtins, s, events).tasks && t !in s.tasks ==>
                          RunFrom(builtins, s, events).tasks[t].Read?
  }

  lemma {:induction false} Unused(tasks: set<nat>) returns (t: nat)
    ensures forall u :: u in tasks ==> u < t
    decreases tasks
  {
    if tasks == {} {
      t := 0;
    } else {
      var u :| u in tasks;
      var v := Unused(tasks - {u});
      t := if u < v then v else u + 1;
      forall w | w in tasks ensures w < t {
        if w != u { assert w in tasks - {u}; }
      }
    }
  }

  /** A task that reads and asks while the guard passes. */
  lemma OneGetsThrough(builtins: set<string>, s: State, t: nat)
    requires GuardPasses(s)
    ensures var events := [ReadBlob(t), Query(t)];
            NothingRepairs(builtins, s, events) && t in RunFrom(builtins, s, events).tasks && RunFrom(builtins, s, events).tasks[t].Passed?
  {
    var events := [ReadBlob(t), Query(t)];
    assert events[..1] == [ReadBlob(t)] && events[..0] == [];
    OneEvent(builtins, s, ReadBlob(t));
    assert RunFrom(builtins, s, events) == Step(builtins, Step(builtins, s, ReadBlob(t)), Query(t));
  }

  lemma ShutExactly(builtins: set<string>, s: State)
    ensures Shut(builtins, s) <==> !GuardPasses(s)
  {
    if GuardPasses(s) {
      var t := Unused(s.tasks.Keys);
      assert t !in s.tasks.Keys;
      OneGetsThrough(builtins, s, t);
      var after := RunFrom(builtins, s, [ReadBlob(t), Query(t)]);
      assert t in after.tasks && t !in s.tasks && !after.tasks[t].Read?;
    } else {
      forall events, t | NothingRepairs(builtins, s, events) && t in RunFrom(builtins, s, events).tasks && t !in s.tasks
        ensures RunFrom(builtins, s, events).tasks[t].Read?
      {
        NoTaskGetsThrough(builtins, s, events);
      }
    }
  }

  /** A failed transaction keeps no row. When its bytes have landed all the same, that is caught exactly when something
      vouches for another class: then, until an event writes the blob or changes the latest valid row, no later
      promotion gets past its guard. It makes no difference whether the upload raised or the task died before its
      commit. */
  lemma FailedUploadIsCaughtExactly(builtins: set<string>, s: State, task: nat, code: Source)
    requires IsReady(s, task) && Merge(builtins, s.tasks[task].ticket.base, code).Success?
    ensures var merged := Merge(builtins, s.tasks[task].ticket.base, code).source;
            var failed := Step(builtins, s, UploadMerged(task, code, Rejected(true)));
            && Step(builtins, s, UploadMerged(task, code, Rejected(false))) == s.(tasks := s.tasks - {task})
            && failed == s.(tasks := s.tasks - {task}, blob := Some(merged))
            && failed == Step(builtins, Step(builtins, s, UploadMerged(task, code, Stored)), Abort(task))
            && (Shut(builtins, failed) <==> Trusted(s).Some? && Trusted(s) != Some(merged))
  {
    var merged := Merge(builtins, s.tasks[task].ticket.base, code).source;
    var t := Uploaded(s.tasks[task].ticket, code, merged);
    assert s.tasks[task := t] - {task} == s.tasks - {task};
    ShutExactly(builtins, Step(builtins, s, UploadMerged(task, code, Rejected(true))));
  }

  /** The first promotion of a competition is not caught: nothing vouches yet, so the next task merges onto the
      class its failed upload left, which no row describes. */
  lemma FirstFailedUploadIsMissed(builtins: set<string>, code: Source)
    requires Merge(builtins, EMPTY_SOURCE, code).Success?
    ensures var merged := Merge(builtins, EMPTY_SOURCE, code).source;
            var begun := Begin(builtins, INITIAL, 0);
            var failed := Step(builtins, begun, UploadMerged(0, code, Rejected(true)));
            var next := Begin(builtins, failed, 1);
            && IsReady(begun, 0) && failed.rows == [] && failed.blob == Some(merged) && GuardPasses(failed)
            && IsReady(next, 1) && next.tasks[1] == Ready(Ticket(merged, None))
  {
    BeginIs(builtins, INITIAL, 0);
    var failed := Step(builtins, Begin(builtins, INITIAL, 0), UploadMerged(0, code, Rejected(true)));
    BeginIs(builtins, failed, 1);
  }

  // ---- after a rebuild that stops half way

  /** A rebuild whose upload raises, or that dies before it records, changes no row. When its bytes have landed, that
      is caught exactly when something vouches for another class than the replay. */
  lemma HalfARebuildIsCaughtExactly(builtins: set<string>, s: State, upload: Upload, best: Source)
    requires s.pending.None? && LatestValid(s.rows).Some?
    requires Replay(builtins, CodesAt(s.rows, ValidIds(s.rows))) == Success(best)
    ensures var dead := Step(builtins, Step(builtins, s, RebuildUpload(upload)), RebuildCrash);
            && dead == s.(blob := if upload.Stored? || upload.wrote then Some(best) else s.blob)
            && (upload.Stored? || upload.wrote ==> (Shut(builtins, dead) <==> Trusted(s).Some? && Trusted(s) != Some(best)))
  {
    HalfARebuild(builtins, s, upload, best);
    ShutExactly(builtins, Step(builtins, Step(builtins, s, RebuildUpload(upload)), RebuildCrash));
  }

  lemma HalfARebuild(builtins: set<string>, s: State, upload: Upload, best: Source)
    requires s.pending.None? && LatestValid(s.rows).Some?
    requires Replay(builtins, CodesAt(s.rows, ValidIds(s.rows))) == Success(best)
    ensures Step(builtins, Step(builtins, s, RebuildUpload(upload)), RebuildCrash) ==
            s.(blob := if upload.Stored? || upload.wrote then Some(best) else s.blob)
  {
    if upload.Stored? {
      UploadEffect(builtins, s, best);
    } else {
      RejectedEffect(builtins, s, upload.wrote, best);
    }
  }

  lemma RejectedEffect(builtins: set<string>, s: State, wrote: bool, best: Source)
    requires s.pending.None? && LatestValid(s.rows).Some?
    requires Replay(builtins, CodesAt(s.rows, ValidIds(s.rows))) == Success(best)
    ensures StepRebuildUpload(builtins, s, Rejected(wrote)) == s.(blob := if wrote then Some(best) else s.blob)
  {
    assert LatestValid(s.rows).value in ValidIds(s.rows);
  }

  /** With no valid row there is nothing to rebuild: the blob stays. */
  lemma NothingToRebuild(builtins: set<string>, s: State, upload: Upload)
    requires LatestValid(s.rows).None?
    ensures Step(builtins, s, RebuildUpload(upload)) == s
  {
    NoValidIds(s.rows, |s.rows|);
  }

  /** Whatever happens between a rebuild's upload and its record: the replay is recorded on the row that is the
      latest valid one by then, and the guard passes afterwards exactly when the blob is still that replay. */
  lemma RecordAgreesExactly(builtins: set<string>, s: State)
    requires s.pending.Some? && LatestValid(s.rows).Some? && s.blob.Some?
    ensures var s' := Step(builtins, s, RebuildRecord);
            var r := LatestValid(s.rows).value;
            && |s'.rows| == |s.rows| && (forall i :: 0 <= i < |s.rows| && i != r ==> s'.rows[i] == s.rows[i])
            && s'.rows[r].code == s.rows[r].code && s'.rows[r].materialized == s.pending.value.base
            && s'.blob == s.blob && s'.pending.None?
            && (GuardPasses(s') <==> s.blob == Some(s.pending.value.base))
  {
    SameLatest(s.rows, Step(builtins, s, RebuildRecord).rows);
  }

  // ---- after all rows are quarantined

  /** The event is a promotion that goes through. */
  predicate Promotes(s: State, e: Event) {
    e.Commit? && IsUploaded(s, e.task)
  }

  /** With no valid row nothing vouches for the blob, and exactly a promotion makes something vouch again: no
      rebuild, freeze or further quarantine does. */
  lemma OnlyAPromotionRestores(builtins: set<string>, s: State, e: Event)
    requires Inv(builtins, s) && LatestValid(s.rows).None?
    ensures Trusted(s).None?
    ensures Trusted(Step(builtins, s, e)).Some? <==> Promotes(s, e)
    ensures !Promotes(s, e) ==> LatestValid(Step(builtins, s, e).rows).None?
  {
    if e.RebuildUpload? {
      NoValidIds(s.rows, |s.rows|);
    } else if e.Quarantine? && e.row < |s.rows| {
      OtherRowQuarantined(s.rows, e.row);
    }
  }

  lemma {:induction false} NoValidIds(rows: seq<Row>, n: nat)
    requires n <= |rows| && forall i :: 0 <= i < n ==> rows[i].invalid
    ensures ValidUpTo(rows, n) == []
  {
    if n > 0 { NoValidIds(rows, n - 1); }
  }

  ghost predicate NothingPromotes(builtins: set<string>, s: State, events: seq<Event>) {
    forall i :: 0 <= i < |events| ==> !Promotes(RunFrom(builtins, s, events[..i]), events[i])
  }

  lemma {:induction false} StaysUnvouched(builtins: set<string>, s: State, events: seq<Event>)
    requires Inv(builtins, s) && LatestValid(s.rows).None? && NothingPromotes(builtins, s, events)
    ensures var s' := RunFrom(builtins, s, events);
            Inv(builtins, s') && LatestValid(s'.rows).None? && (s.blob.Some? ==> s'.blob.Some?)
  {
    if events != [] {
      var init, e := events[..|events| - 1], events[|events| - 1];
      forall i | 0 <= i < |init| ensures !Promotes(RunFrom(builtins, s, init[..i]), init[i]) {
        assert init[..i] == events[..i];
      }
      StaysUnvouched(builtins, s, init);
      var before := RunFrom(builtins, s, init);
      StepKeeps(builtins, before, e);
      OnlyAPromotionRestores(builtins, before, e);
      if s.blob.Some? { StepKeepsBlob(builtins, before, e); }
    }
  }

  /** A task's three reads with nothing between them. */
  function Begin(builtins: set<string>, s: State, task: nat): State {
    Step(builtins, Step(builtins, Step(builtins, s, ReadBlob(task)), Query(task)), Download(task))
  }

  lemma BeginIs(builtins: set<string>, s: State, task: nat)
    ensures Begin(builtins, s, task) ==
            s.(tasks := if GuardPasses(s) then s.tasks[task := Ready(ReadBase(s))] else s.tasks - {task})
  {
    var read := Step(builtins, s, ReadBlob(task));
    assert read == s.(tasks := s.tasks[task := Read(s.blob)]);
    assert Trusted(read) == Trusted(s) && Vouch(read, s.blob) == Vouch(s, s.blob);
    var asked := Step(builtins, read, Query(task));
    if GuardPasses(s) {
      assert asked.tasks == s.tasks[task := Passed(Vouch(s, s.blob))];
      assert Downloaded(asked, Vouch(s, s.blob)) == ReadBase(s);
      assert Begin(builtins, s, task).tasks == s.tasks[task := Ready(ReadBase(s))];
    } else {
      assert asked.tasks == s.tasks - {task};
    }
  }

  lemma BeginKeeps(builtins: set<string>, s: State, task: nat)
    requires Inv(builtins, s)
    ensures Inv(builtins, Begin(builtins, s, task))
  {
    var read := Step(builtins, s, ReadBlob(task));
    ReadsKeep(builtins, s, ReadBlob(task));
    ReadsKeep(builtins, read, Query(task));
    ReadsKeep(builtins, Step(builtins, read, Query(task)), Download(task));
  }

  /** After all rows are quarantined, and until a promotion goes through, the guard lets every task through to
      whatever the blob holds; the first promotion is the merge onto that, and what it was built from is lost. */
  lemma AllQuarantinedIsMissed(builtins: set<string>, s: State, events: seq<Event>, task: nat, code: Source)
    requires Inv(builtins, s) && s.blob.Some? && LatestValid(s.rows).None?
    requires NothingPromotes(builtins, s, events)
    requires var now := RunFrom(builtins, s, events); now.blob.Some? ==> Merge(builtins, now.blob.value, code).Success?
    ensures var now := RunFrom(builtins, s, events);
            var ready := Begin(builtins, now, task);
            && now.blob.Some? && IsReady(ready, task)
            && Stores(builtins, ready, task, code, Merge(builtins, now.blob.value, code))
            && Finish(builtins, ready, task, code, Stored).basis[|now.rows|].None?
  {
    StaysUnvouched(builtins, s, events);
    var now := RunFrom(builtins, s, events);
    BeginIs(builtins, now, task);
    FinishStores(builtins, Begin(builtins, now, task), task, code);
  }

  // ---- the blob and the replay of the valid rows

  /** The latest valid row's class was built from exactly the rows that are valid now. */
  predicate Clean(s: State)
    requires |s.basis| == |s.rows|
  {
    LatestValid(s.rows).Some? ==> s.basis[LatestValid(s.rows).value] == Some(ValidIds(s.rows))
  }

  /** The latest valid row's class is the replay of the valid rows. */
  predicate InStep(builtins: set<string>, s: State) {
    LatestValid(s.rows).Some? ==>
      Replay(builtins, CodesAt(s.rows, ValidIds(s.rows))) == Success(s.rows[LatestValid(s.rows).value].materialized)
  }

  lemma CleanIsInStep(builtins: set<string>, s: State)
    requires Inv(builtins, s) && Clean(s)
    ensures InStep(builtins, s)
  {
    if LatestValid(s.rows).Some? { assert RowOk(builtins, s, LatestValid(s.rows).value); }
  }

  lemma CleanBlobIsReplay(builtins: set<string>, s: State)
    requires Inv(builtins, s) && Clean(s)
    requires GuardPasses(s) && s.blob.Some? && Trusted(s).Some?
    ensures Replay(builtins, CodesAt(s.rows, ValidIds(s.rows))) == Success(s.blob.value)
  {
    CleanIsInStep(builtins, s);
    assert RowOk(builtins, s, LatestValid(s.rows).value);
  }

  lemma {:induction false} ValidUpToAppend(rows: seq<Row>, row: Row, n: nat)
    requires n <= |rows|
    ensures ValidUpTo(rows + [row], n) == ValidUpTo(rows, n)
  {
    if n > 0 { ValidUpToAppend(rows, row, n - 1); }
  }

  lemma {:induction false} ValidUpToSame(rows: seq<Row>, rows': seq<Row>, n: nat)
    requires n <= |rows| == |rows'| && forall i :: 0 <= i < |rows| ==> rows[i].invalid == rows'[i].invalid
    ensures ValidUpTo(rows, n) == ValidUpTo(rows', n)
  {
    if n > 0 { ValidUpToSame(rows, rows', n - 1); }
  }

  /** Whatever has happened since its guard and since its upload: a promotion leaves a clean state exactly when its
      base was built from the rows that are valid as it commits. */
  lemma PromotionLeavesCleanExactly(builtins: set<string>, s: State, task: nat)
    requires Inv(builtins, s) && IsUploaded(s, task)
    ensures var s' := Step(builtins, s, Commit(task));
            && |s'.basis| == |s'.rows| == |s.rows| + 1
            && (Clean(s') <==> s.tasks[task].ticket.basis == Some(ValidIds(s.rows)))
  {
    var s' := StepCommit(s, task);
    NewRowIsValid(s.rows, s'.rows);
    var basis := s.tasks[task].ticket.basis;
    if basis.Some? { SameEndSameStart(basis.value, ValidIds(s.rows), |s.rows|); }
  }

  lemma SameEndSameStart(a: seq<nat>, b: seq<nat>, n: nat)
    ensures a + [n] == b + [n] <==> a == b
  {
    if a + [n] == b + [n] {
      assert a == (a + [n])[..|a|] == (b + [n])[..|b|] == b;
    }
  }

  lemma NewRowIsValid(rows: seq<Row>, rows': seq<Row>)
    requires |rows'| == |rows| + 1 && rows'[..|rows|] == rows && !rows'[|rows|].invalid
    ensures ValidIds(rows') == ValidIds(rows) + [|rows|]
  {
    assert rows' == rows + [rows'[|rows|]];
    ValidUpToAppend(rows, rows'[|rows|], |rows|);
  }

  /** From a clean state, a promotion with nothing in between leaves a clean state. */
  lemma PromotionKeepsClean(builtins: set<string>, s: State, task: nat, code: Source)
    requires Inv(builtins, s) && Clean(s) && GuardPasses(s)
    requires s.blob.Some? ==> Trusted(s).Some?
    requires Merge(builtins, ReadBase(s).base, code).Success?
    ensures var s' := Finish(builtins, Begin(builtins, s, task), task, code, Stored);
            |s'.basis| == |s'.rows| == |s.rows| + 1 && Clean(s')
  {
    BeginIs(builtins, s, task);
    BeginKeeps(builtins, s, task);
    CleanBase(builtins, s);
    UploadKeeps(builtins, Begin(builtins, s, task), task, code, Stored);
    PromotionLeavesCleanExactly(builtins, Step(builtins, Begin(builtins, s, task), UploadMerged(task, code, Stored)), task);
  }

  lemma CleanBase(builtins: set<string>, s: State)
    requires Inv(builtins, s) && Clean(s) && GuardPasses(s)
    requires s.blob.Some? ==> Trusted(s).Some?
    ensures ReadBase(s).basis == Some(ValidIds(s.rows))
  {
    if s.blob.Some? { assert RowOk(builtins, s, LatestValid(s.rows).value); }
  }

  /** The state after an uninterrupted rebuild, with best recorded on row r. */
  function Rebuilt(s: State, r: nat, best: Source): State
    requires r < |s.rows| == |s.basis|
  {
    s.(blob := Some(best),
       rows := s.rows[r := s.rows[r].(materialized := best, materializedSha := Some(best))],
       basis := s.basis[r := Some(ValidIds(s.rows))])
  }

  lemma UploadEffect(builtins: set<string>, s: State, best: Source)
    requires s.pending.None? && LatestValid(s.rows).Some?
    requires Replay(builtins, CodesAt(s.rows, ValidIds(s.rows))) == Success(best)
    ensures StepRebuildUpload(builtins, s, Stored) == s.(blob := Some(best), pending := Some(Ticket(best, Some(ValidIds(s.rows)))))
  {
    assert LatestValid(s.rows).value in ValidIds(s.rows);
  }

  lemma RebuildEffect(builtins: set<string>, s: State, best: Source)
    requires |s.basis| == |s.rows| && s.pending.None? && LatestValid(s.rows).Some?
    requires Replay(builtins, CodesAt(s.rows, ValidIds(s.rows))) == Success(best)
    ensures StepRebuildRecord(StepRebuildUpload(builtins, s, Stored)) == Rebuilt(s, LatestValid(s.rows).value, best)
  {
    UploadEffect(builtins, s, best);
  }

  lemma RebuiltIsClean(s: State, best: Source)
    requires |s.basis| == |s.rows| && LatestValid(s.rows).Some?
    ensures var s' := Rebuilt(s, LatestValid(s.rows).value, best);
            && LatestValid(s'.rows) == LatestValid(s.rows) && ValidIds(s'.rows) == ValidIds(s.rows)
            && Clean(s') && Trusted(s') == Some(best) == s'.blob
  {
    var s' := Rebuilt(s, LatestValid(s.rows).value, best);
    SameLatest(s.rows, s'.rows);
    ValidUpToSame(s.rows, s'.rows, |s.rows|);
  }

  /** A rebuild with nothing in between makes any state clean and the guard pass. */
  lemma RebuildMakesClean(builtins: set<string>, s: State)
    requires Inv(builtins, s) && s.pending.None? && LatestValid(s.rows).Some?
    requires Replay(builtins, CodesAt(s.rows, ValidIds(s.rows))).Success?
    ensures var s' := StepRebuildRecord(StepRebuildUpload(builtins, s, Stored));
            |s'.basis| == |s'.rows| && Clean(s') && GuardPasses(s') && s'.blob.Some? && Trusted(s').Some?
  {
    var best := Replay(builtins, CodesAt(s.rows, ValidIds(s.rows))).source;
    RebuildEffect(builtins, s, best);
    RebuiltIsClean(s, best);
  }

  lemma {:induction false} SameLatest(rows: seq<Row>, rows': seq<Row>)
    requires |rows| == |rows'| && forall i :: 0 <= i < |rows| ==> rows[i].invalid == rows'[i].invalid
    ensures LatestValid(rows) == LatestValid(rows')
  {
    if rows != [] { SameLatest(rows[..|rows| - 1], rows'[..|rows'| - 1]); }
  }

  /** After a freeze that goes through, the stored class is still the replay of the valid rows exactly when the
      row's code carried no earlier mark, which extraction would prefer, or there was nothing to freeze. */
  lemma FreezeStaysInStepExactly(builtins: set<string>, s: State, params: map<string, int>, roundTrips: bool, writes: FreezeWrites)
    requires Inv(builtins, s) && Clean(s)
    requires StepFreeze(builtins, s, params, roundTrips, writes).rows != s.rows
    ensures var row := s.rows[LatestValid(s.rows).value];
            InStep(builtins, StepFreeze(builtins, s, params, roundTrips, writes)) <==>
              row.code.frozen == [] || !roundTrips || !Defines(row.materialized, ParamCandidates)
  {
    var s' := StepFreeze(builtins, s, params, roundTrips, writes);
    var r := LatestValid(s.rows).value;
    assert RowOk(builtins, s, r);
    var init := OnlyLatestChanged(s.rows, s'.rows, r);
    MarkedReplay(builtins, init, s.rows[r].code, s.rows[r].materialized, params, roundTrips);
  }

  // ---- freezes that go through, and freezes that do not

  /** There is a frozen class to store: the latest valid row's class is not frozen to these params yet, can be
      frozen, and still has its score then. */
  predicate FreezeTries(builtins: set<string>, s: State, params: map<string, int>, roundTrips: bool, writes: FreezeWrites) {
    && s.tasks == map[] && s.pending.None? && params != map[]
    && LatestValid(s.rows).Some?
    && var src := s.rows[LatestValid(s.rows).value].materialized;
       !IsFrozenTo(src, params) && Merge(builtins, src, WithFrozen(FREEZE_ONLY, Some(params), roundTrips)).Success? && writes.reproduces
  }

  function FrozenClass(builtins: set<string>, s: State, params: map<string, int>, roundTrips: bool, writes: FreezeWrites): Source
    requires FreezeTries(builtins, s, params, roundTrips, writes)
  {
    Merge(builtins, s.rows[LatestValid(s.rows).value].materialized, WithFrozen(FREEZE_ONLY, Some(params), roundTrips)).source
  }

  /** The blob reads back as the frozen class, and the row's update takes effect. */
  predicate FreezeCompletes(builtins: set<string>, s: State, params: map<string, int>, roundTrips: bool, writes: FreezeWrites) {
    && FreezeTries(builtins, s, params, roundTrips, writes) && writes.updated
    && (writes.uploaded || s.blob == Some(FrozenClass(builtins, s, params, roundTrips, writes)))
  }

  /** A freeze that does not go through keeps the rows. The guard passes afterwards if and only if nothing was
      uploaded, or the restoring upload took effect, or the frozen class is the row's own; and a restored blob is
      the latest valid row's class again. */
  lemma UnfinishedFreezeExactly(builtins: set<string>, s: State, params: map<string, int>, roundTrips: bool, writes: FreezeWrites)
    requires Inv(builtins, s) && GuardPasses(s) && s.blob.Some? && Trusted(s).Some?
    requires !FreezeCompletes(builtins, s, params, roundTrips, writes)
    ensures var s' := Step(builtins, s, FreezeLatest(params, roundTrips, writes));
            var own := s.rows[LatestValid(s.rows).value].materialized;
            var uploads := FreezeTries(builtins, s, params, roundTrips, writes) && writes.uploaded;
            && s'.rows == s.rows && s' == s.(blob := s'.blob)
            && (GuardPasses(s') <==> !uploads || writes.restored || FrozenClass(builtins, s, params, roundTrips, writes) == own)
            && (!uploads || writes.restored ==> s'.blob == Some(own))
  {
    assert RowOk(builtins, s, LatestValid(s.rows).value);
  }

  /** A freeze that goes through stores the frozen class as the blob and on the latest valid row, marks that row's
      code last, changes no other row, and the guard passes. */
  lemma FinishedFreeze(builtins: set<string>, s: State, params: map<string, int>, roundTrips: bool, writes: FreezeWrites)
    requires Inv(builtins, s) && FreezeCompletes(builtins, s, params, roundTrips, writes)
    ensures var s' := Step(builtins, s, FreezeLatest(params, roundTrips, writes));
            var r := LatestValid(s.rows).value;
            var frozen := FrozenClass(builtins, s, params, roundTrips, writes);
            && |s'.rows| == |s.rows| && (forall i :: 0 <= i < |s.rows| && i != r ==> s'.rows[i] == s.rows[i])
            && s'.rows[r].materialized == frozen && s'.rows[r].pipelineSha == Some(frozen) && s'.blob == Some(frozen) && GuardPasses(s')
            && s'.rows[r].code.frozen == s.rows[r].code.frozen + (if roundTrips then [params] else [])
            && s'.rows[r].code.(frozen := []) == s.rows[r].code.(frozen := [])
  {
    var s' := Step(builtins, s, FreezeLatest(params, roundTrips, writes));
    SameLatest(s.rows, s'.rows);
    var code := s.rows[LatestValid(s.rows).value].code;
    assert code.frozen + [] == code.frozen;
  }

  /** What a stored freeze is for: the class offers the frozen params and nothing else. */
  lemma FrozenClassOffersOnly(w: World, s: State, params: map<string, int>, writes: FreezeWrites, ctx: Value)
    requires Inv(w.builtins, s) && FreezeCompletes(w.builtins, s, params, true, writes)
    requires Defines(s.rows[LatestValid(s.rows).value].materialized, ParamCandidates)
    ensures var s' := Step(w.builtins, s, FreezeLatest(params, true, writes));
            RunHook(w, Patched(Base, s'.rows[LatestValid(s.rows).value].materialized), ParamCandidates, [ctx]) == Return(List([Params(params)]))
  {
    var src := s.rows[LatestValid(s.rows).value].materialized;
    assert RowOk(w.builtins, s, LatestValid(s.rows).value);
    FinishedFreeze(w.builtins, s, params, true, writes);
    FreezeOnlyMerge(w.builtins, src, params, true);
    FrozenHas(src, params);
    FrozenCall(w, Frozen(src, Some(params)), params, [ctx]);
  }

  lemma FrozenHas(src: Source, params: map<string, int>)
    requires Defines(src, ParamCandidates)
    ensures var out := Frozen(src, Some(params));
            Defines(out, ParamCandidates) && out.members[HookName(ParamCandidates)] == FrozenMethod(params)
  {
    PruneKeeps(src.members[HookName(ParamCandidates) := FrozenMethod(params)]);
    if IsCandidatesHelper(HookName(ParamCandidates)) { CandidatesHelperIsNoHook(HookName(ParamCandidates)); }
    HookNameIsHookName(ParamCandidates);
  }

  /** When only the latest valid row changes, so does only the last code of the replay. */
  lemma OnlyLatestChanged(rows: seq<Row>, rows': seq<Row>, r: nat) returns (init: seq<Source>)
    requires LatestValid(rows) == Some(r) && |rows'| == |rows| && !rows'[r].invalid
    requires forall i :: 0 <= i < |rows| && i != r ==> rows'[i] == rows[i]
    ensures LatestValid(rows') == Some(r)
    ensures CodesAt(rows, ValidIds(rows)) == init + [rows[r].code]
    ensures CodesAt(rows', ValidIds(rows')) == init + [rows'[r].code]
  {
    SameLatest(rows, rows');
    ValidUpToSame(rows, rows', |rows|);
    LastValidId(rows, |rows|, r);
    var ids := ValidIds(rows);
    var before := ids[..|ids| - 1];
    assert ids == before + [r] == ValidIds(rows');
    CodesAtLast(rows, rows', before, r);
    init := CodesAt(rows, before);
  }

  lemma MarkedReplay(builtins: set<string>, init: seq<Source>, code: Source, src: Source, params: map<string, int>, roundTrips: bool)
    requires Replay(builtins, init + [code]) == Success(src) && Plain(builtins, src) && params != map[] && !IsFrozenTo(src, params)
    ensures Replay(builtins, init + [WithFrozen(code, Some(params), roundTrips)]) ==
            Merge(builtins, src, WithFrozen(FREEZE_ONLY, Some(params), roundTrips)) <==>
            code.frozen == [] || !roundTrips || !Defines(src, ParamCandidates)
  {
    if code.frozen == [] {
      FrozenReplay(builtins, init, code, params, roundTrips);
    } else {
      FreezeOnlyMerge(builtins, src, params, roundTrips);
      EarlierMarkReplay(builtins, init, code, params, roundTrips);
      if roundTrips { FrozenDiffers(builtins, src, params); }
    }
  }

  /** What freezing afterwards makes of a merged class. */
  lemma FreezeOnlyMerge(builtins: set<string>, src: Source, params: map<string, int>, roundTrips: bool)
    requires Plain(builtins, src) && params != map[]
    ensures Merge(builtins, src, WithFrozen(FREEZE_ONLY, Some(params), roundTrips)) ==
            Success(if roundTrips then Frozen(src, Some(params)) else src)
  {
    PlainCore(builtins, src, params, roundTrips);
    FrozenStillValid(builtins, src, params);
  }

  lemma EarlierMarkReplay(builtins: set<string>, init: seq<Source>, code: Source, params: map<string, int>, roundTrips: bool)
    requires code.frozen != [] && Replay(builtins, init + [code]).Success?
    ensures Replay(builtins, init + [WithFrozen(code, Some(params), roundTrips)]) == Replay(builtins, init + [code])
  {
    var marked := WithFrozen(code, Some(params), roundTrips);
    assert (init + [code])[..|init|] == init && (init + [marked])[..|init|] == init;
    SameCore(Replay(builtins, init).source, code, marked);
    EarlierMarkWins(code, params);
  }

  lemma FrozenDiffers(builtins: set<string>, src: Source, params: map<string, int>)
    requires Plain(builtins, src) && !IsFrozenTo(src, params)
    ensures Frozen(src, Some(params)) == src <==> !Defines(src, ParamCandidates)
  {
    if Defines(src, ParamCandidates) {
      var changed := src.members[HookName(ParamCandidates) := FrozenMethod(params)];
      PruneKeeps(changed);
      if IsCandidatesHelper(HookName(ParamCandidates)) { CandidatesHelperIsNoHook(HookName(ParamCandidates)); }
      HookNameIsHookName(ParamCandidates);
      assert Frozen(src, Some(params)).members[HookName(ParamCandidates)] == FrozenMethod(params);
    }
  }

  /** A winner whose code already carries the mark p. */
  function MarkedCode(p: map<string, int>): Source {
    FreezeLayer(p).(overrides := {}, frozen := [p])
  }

  lemma MarkedMerge(builtins: set<string>, p: map<string, int>)
    requires p != map[]
    ensures Merge(builtins, EMPTY_SOURCE, MarkedCode(p)) == Success(MarkedCode(p).(frozen := []))
  {
    var code := MarkedCode(p);
    NothingToCompose(code);
    forall h ensures Defines(code, h) <==> h == ParamCandidates {
      if Defines(code, h) { HookNameInjective(h, ParamCandidates); }
    }
    assert CoreSource(EMPTY_SOURCE, code).members == code.members;
    HookNameIsHookName(ParamCandidates);
    if IsCandidatesHelper(HookName(ParamCandidates)) { CandidatesHelperIsNoHook(HookName(ParamCandidates)); }
    assert Dead(code.members) == {};
    assert code.members[HookName(ParamCandidates) := FrozenMethod(p)] == code.members;
    assert Globals(FrozenMethod(p).body) == {};
  }

  /** The state after the first promotion ever. */
  function FirstPromoted(code: Source, merged: Source): State {
    State([Row(code, merged, Some(merged), Some(merged), false)], Some(merged), map[], None, [Some([0])])
  }

  lemma FirstPromotion(builtins: set<string>, code: Source, merged: Source)
    requires Merge(builtins, EMPTY_SOURCE, code) == Success(merged)
    ensures Finish(builtins, Begin(builtins, INITIAL, 0), 0, code, Stored) == FirstPromoted(code, merged)
    ensures Inv(builtins, FirstPromoted(code, merged))
  {
    var begun := Begin(builtins, INITIAL, 0);
    BeginIs(builtins, INITIAL, 0);
    assert begun.tasks == map[0 := Ready(Ticket(EMPTY_SOURCE, Some([])))];
    RunKeeps(builtins, []);
    BeginKeeps(builtins, INITIAL, 0);
    FinishKeeps(builtins, begun, 0, code);
    FinishIs(builtins, begun, 0, code, merged);
    var empty: seq<nat> := [];
    assert begun.tasks - {0} == map[] && empty + [0] == [0];
    assert INITIAL.rows + FirstPromoted(code, merged).rows == FirstPromoted(code, merged).rows;
  }

  lemma FinishKeeps(builtins: set<string>, s: State, task: nat, code: Source)
    requires Inv(builtins, s) && IsReady(s, task)
    ensures Inv(builtins, Finish(builtins, s, task, code, Stored))
  {
    StepKeeps(builtins, s, UploadMerged(task, code, Stored));
    StepKeeps(builtins, Step(builtins, s, UploadMerged(task, code, Stored)), Commit(task));
  }

  lemma FirstPromotedIsClean(code: Source, merged: Source)
    ensures var s := FirstPromoted(code, merged); LatestValid(s.rows) == Some(0) && Clean(s)
  {
    var s := FirstPromoted(code, merged);
    assert ValidUpTo(s.rows, 0) == [];
    assert ValidUpTo(s.rows, 1) == [0];
  }

  lemma FreezeGoesThrough(builtins: set<string>, s: State, p: map<string, int>, q: map<string, int>)
    requires p != map[] && q != map[] && p != q
    requires s == FirstPromoted(MarkedCode(p), MarkedCode(p).(frozen := [])) && Inv(builtins, s)
    ensures var s' := StepFreeze(builtins, s, q, true, FreezeWrites(true, true, true, true));
            s'.rows != s.rows && GuardPasses(s')
  {
    var src := MarkedCode(p).(frozen := []);
    assert RowOk(builtins, s, 0);
    assert [Params(p)][0] != [Params(q)][0];
    FreezeOnlyMerge(builtins, src, q, true);
    FrozenIsStored(s, p, q, Frozen(src, Some(q)));
  }

  lemma FrozenIsStored(s: State, p: map<string, int>, q: map<string, int>, frozen: Source)
    requires |s.rows| == 1 && s.rows[0].code == MarkedCode(p) && LatestValid(s.rows) == Some(0)
    ensures var s' := StoreFrozen(s, 0, WithFrozen(MarkedCode(p), Some(q), true), frozen, FreezeWrites(true, true, true, true));
            GuardPasses(s') && (q != map[] ==> s'.rows != s.rows)
  {
    var s' := StoreFrozen(s, 0, WithFrozen(MarkedCode(p), Some(q), true), frozen, FreezeWrites(true, true, true, true));
    assert s'.rows[0].code == WithFrozen(MarkedCode(p), Some(q), true);
    assert q != map[] ==> |s'.rows[0].code.frozen| == 2;
    assert LatestValid(s'.rows) == Some(0);
  }

  lemma SecondFreeze(builtins: set<string>, s: State, p: map<string, int>, q: map<string, int>)
    requires s == FirstPromoted(MarkedCode(p), MarkedCode(p).(frozen := [])) && Inv(builtins, s) && Clean(s)
    requires StepFreeze(builtins, s, q, true, FreezeWrites(true, true, true, true)).rows != s.rows
    ensures !InStep(builtins, StepFreeze(builtins, s, q, true, FreezeWrites(true, true, true, true)))
  {
    FreezeStaysInStepExactly(builtins, s, q, true, FreezeWrites(true, true, true, true));
    assert LatestValid(s.rows) == Some(0) && s.rows[0].code.frozen == [p];
    assert HookName(ParamCandidates) in s.rows[0].materialized.members;
  }

  /** The mark decides: the first promotion of a code that carries p, then a freeze to q that goes through. The
      guard passes, and the class frozen to q is not what the row replays to. */
  lemma SecondMarkFallsOutOfStep(builtins: set<string>, p: map<string, int>, q: map<string, int>)
    requires p != map[] && q != map[] && p != q
    ensures var s := Finish(builtins, Begin(builtins, INITIAL, 0), 0, MarkedCode(p), Stored);
            var s' := StepFreeze(builtins, s, q, true, FreezeWrites(true, true, true, true));
            && |s.rows| == 1 && InStep(builtins, s)
            && s'.rows != s.rows && GuardPasses(s') && !InStep(builtins, s')
  {
    var merged := MarkedCode(p).(frozen := []);
    MarkedMerge(builtins, p);
    FirstPromotion(builtins, MarkedCode(p), merged);
    FreezeFallsOut(builtins, FirstPromoted(MarkedCode(p), merged), p, q);
  }

  lemma FreezeFallsOut(builtins: set<string>, s: State, p: map<string, int>, q: map<string, int>)
    requires p != map[] && q != map[] && p != q
    requires s == FirstPromoted(MarkedCode(p), MarkedCode(p).(frozen := [])) && Inv(builtins, s)
    ensures var s' := StepFreeze(builtins, s, q, true, FreezeWrites(true, true, true, true));
            |s.rows| == 1 && InStep(builtins, s) && s'.rows != s.rows && GuardPasses(s') && !InStep(builtins, s')
  {
    FirstPromotedIsClean(MarkedCode(p), MarkedCode(p).(frozen := []));
    CleanIsInStep(builtins, s);
    FreezeGoesThrough(builtins, s, p, q);
    SecondFreeze(builtins, s, p, q);
  }

  lemma {:induction false} LastValidId(rows: seq<Row>, n: nat, r: nat)
    requires r < n <= |rows| && !rows[r].invalid && forall i :: r < i < n ==> rows[i].invalid
    ensures var ids := ValidUpTo(rows, n); |ids| > 0 && ids[|ids| - 1] == r
  {
    if n - 1 > r { LastValidId(rows, n - 1, r); }
  }

  /** Quarantining the latest row of a guarded state is caught, unless an earlier class is the same text. */
  lemma QuarantineOfLatestIsCaught(builtins: set<string>, s: State)
    requires Inv(builtins, s) && GuardPasses(s) && s.blob.Some? && Trusted(s).Some?
    ensures var s' := Step(builtins, s, Quarantine(LatestValid(s.rows).value));
            Trusted(s').Some? ==>
              (GuardPasses(s') <==> s'.rows[LatestValid(s'.rows).value].materialized == s.rows[LatestValid(s.rows).value].materialized)
  {
    var r := LatestValid(s.rows).value;
    var s' := Step(builtins, s, Quarantine(r));
    QuarantineKeeps(builtins, s, r);
    assert RowOk(builtins, s, r);
    if Trusted(s').Some? { assert RowOk(builtins, s', LatestValid(s'.rows).value); }
  }

  /** Quarantining an earlier row is not caught: the guard still passes although the blob contains the
      quarantined layer, and the state is clean no more. A rebuild is what repairs it. */
  lemma QuarantineOfEarlierIsMissed(builtins: set<string>, s: State, i: nat)
    requires Inv(builtins, s) && Clean(s) && GuardPasses(s) && s.blob.Some? && Trusted(s).Some?
    requires i < LatestValid(s.rows).value && !s.rows[i].invalid
    ensures var s' := Step(builtins, s, Quarantine(i));
            && GuardPasses(s') && Trusted(s').Some? && s'.blob == s.blob
            && |s'.basis| == |s'.rows| && !Clean(s')
            && s'.basis[LatestValid(s'.rows).value].Some? && i in s'.basis[LatestValid(s'.rows).value].value
  {
    var s' := Step(builtins, s, Quarantine(i));
    var r := LatestValid(s.rows).value;
    OtherRowQuarantined(s.rows, i);
    assert i in ValidIds(s.rows);
    assert i !in ValidIds(s'.rows);
  }

  /** Row n is valid, the row after it is the latest, and its class was not built from row n; the guard passes. */
  predicate LayerDropped(n: nat, s: State) {
    && |s.rows| == |s.basis| == n + 2 && LatestValid(s.rows) == Some(n + 1)
    && !s.rows[n].invalid && s.basis[n + 1].Some? && n !in s.basis[n + 1].value
    && GuardPasses(s) && !Clean(s)
  }

  /** Two overlapping promotions: the second one, merged onto the class both read, drops the first one's
      layer from the blob, and the guard passes. */
  lemma OverlappingPromotionsDropALayer(builtins: set<string>, s: State, a: nat, b: nat, codeA: Source, codeB: Source)
    requires Inv(builtins, s) && Clean(s) && GuardPasses(s) && a != b
    requires s.blob.Some? ==> Trusted(s).Some?
    requires Merge(builtins, ReadBase(s).base, codeA).Success? && Merge(builtins, ReadBase(s).base, codeB).Success?
    ensures var both := Begin(builtins, Begin(builtins, s, a), b);
            var one := Finish(builtins, both, a, codeA, Stored);
            && Stores(builtins, both, a, codeA, Merge(builtins, ReadBase(s).base, codeA))
            && Stores(builtins, one, b, codeB, Merge(builtins, ReadBase(s).base, codeB))
            && LayerDropped(|s.rows|, Finish(builtins, one, b, codeB, Stored))
  {
    BeginIs(builtins, s, a);
    var first := Begin(builtins, s, a);
    BeginIs(builtins, first, b);
    assert ReadBase(first) == ReadBase(s);
    CleanBase(builtins, s);
    OverlapFrom(builtins, Begin(builtins, first, b), ReadBase(s), a, b, codeA, codeB);
  }

  lemma OverlapFrom(builtins: set<string>, both: State, t: Ticket, a: nat, b: nat, codeA: Source, codeB: Source)
    requires a != b && IsReady(both, a) && IsReady(both, b) && both.tasks[a] == Ready(t) == both.tasks[b]
    requires |both.basis| == |both.rows| && t.basis == Some(ValidIds(both.rows))
    requires Merge(builtins, t.base, codeA).Success? && Merge(builtins, t.base, codeB).Success?
    ensures var one := Finish(builtins, both, a, codeA, Stored);
            && Stores(builtins, both, a, codeA, Merge(builtins, t.base, codeA))
            && Stores(builtins, one, b, codeB, Merge(builtins, t.base, codeB))
            && LayerDropped(|both.rows|, Finish(builtins, one, b, codeB, Stored))
  {
    var n := |both.rows|;
    FinishStores(builtins, both, a, codeA);
    var one := Finish(builtins, both, a, codeA, Stored);
    FinishStores(builtins, one, b, codeB);
    var two := Finish(builtins, one, b, codeB, Stored);
    assert two.rows[..|one.rows|][n] == one.rows[n];
    assert !two.rows[n].invalid;
    assert n in ValidIds(two.rows);
  }
}
