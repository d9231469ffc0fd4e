/** The procedures that write the registry, step by step, against the transitions of module Registry. */
module RegistryStore {
  import opened Python
  import opened Materialize
  import opened Freeze
  import opened Registry
  import opened Guard

  /** raw.pipelines of one competition and its stored best pipeline. tasks, pending and basis only serve
      the proofs. */
  class Store {
    const builtins: set<string>
    var rows: seq<Row>
    var blob: Option<Source>
    ghost var tasks: map<nat, Task>
    ghost var pending: Option<Ticket>
    ghost var basis: seq<Option<seq<nat>>>

    ghost function Now(): State
      reads this
    {
      State(rows, blob, tasks, pending, basis)
    }

    ghost predicate Valid()
      reads this
    {
      Inv(builtins, Now())
    }

    constructor (builtins: set<string>)
      ensures this.builtins == builtins
      ensures Valid() && Now() == INITIAL
    {
      this.builtins := builtins;
      rows, blob, tasks, pending, basis := [], None, map[], None, [];
      new;
      RunKeeps(builtins, []);
    }

    /** The latest row whose invalid_reason is null. */
    method FindLatestValid() returns (r: Option<nat>)
      ensures r == LatestValid(rows)
    {
      var i := |rows|;
      assert rows[..i] == rows;
      while i > 0
        invariant 0 <= i <= |rows|
        invariant LatestValid(rows) == LatestValid(rows[..i])
      {
        if !rows[i - 1].invalid {
          return Some(i - 1);
        }
        assert rows[..i][..i - 1] == rows[..i - 1];
        i := i - 1;
      }
      assert rows[..i] == [];
      return None;
    }

    /** The first read of _baseline_source_guard. */
    method GuardReadsBlob(ghost task: nat) returns (seen: Option<Source>)
      requires Valid()
      modifies this`tasks
      ensures Valid() && Now() == Step(builtins, old(Now()), ReadBlob(task))
      ensures seen == blob && task in tasks && tasks[task] == Read(seen)
    {
      ReadsKeep(builtins, Now(), ReadBlob(task));
      seen := blob;
      tasks := tasks[task := Read(seen)];
    }

    /** The rest of _baseline_source_guard: without a blob it passes at once; otherwise the registry is asked. */
    method GuardQueries(ghost task: nat, seen: Option<Source>) returns (ok: bool)
      requires Valid() && task in tasks && tasks[task] == Read(seen)
      modifies this`tasks
      ensures Valid() && Now() == Step(builtins, old(Now()), Query(task))
      ensures ok <==> GuardAccepts(seen, Trusted(old(Now())))
      ensures ok ==> task in tasks && tasks[task].Passed?
    {
      ghost var before := Now();
      ReadsKeep(builtins, before, Query(task));
      if seen.None? {
        ok := true;
      } else {
        var r := FindLatestValid();
        var trusted: Option<Source> := None;
        if r.Some? {
          trusted := TrustedSha(rows[r.value]);
        }
        ok := trusted.None? || seen == trusted;
      }
      tasks := if ok then tasks[task := Passed(Vouch(before, seen))] else tasks - {task};
    }

    /** The promote task's own download, after the guard. */
    method DownloadBase(ghost task: nat) returns (base: Option<Source>)
      requires Valid() && task in tasks && tasks[task].Passed?
      modifies this`tasks
      ensures Valid() && Now() == Step(builtins, old(Now()), Download(task))
      ensures base == blob && IsReady(Now(), task) && tasks[task].ticket.base == BaseOf(base)
    {
      ghost var before := Now();
      ReadsKeep(builtins, before, Download(task));
      base := blob;
      tasks := tasks[task := Ready(Downloaded(before, tasks[task].vouched))];
    }

    /** _promote_winner after merge-verify, up to its commit: the merged class is uploaded inside the transaction
        that inserts the row, and a failure rolls the insert back. text is what was uploaded. */
    method UploadWinner(ghost task: nat, base: Option<Source>, code: Source, upload: Upload) returns (text: Option<Source>)
      requires Valid() && IsReady(Now(), task) && tasks[task].ticket.base == BaseOf(base)
      modifies this`blob, this`tasks
      ensures Valid() && Now() == Step(builtins, old(Now()), UploadMerged(task, code, upload))
      ensures text.Some? ==> upload.Stored? && blob == text && IsUploaded(Now(), task)
                             && tasks[task].code == code && tasks[task].merged == text.value
      ensures text.None? ==> task !in tasks
    {
      ghost var before := Now();
      ghost var ticket := tasks[task].ticket;
      UploadKeeps(builtins, before, task, code, upload);
      text := None;
      tasks := tasks - {task};
      var merged := MaterializeBestPipeline(builtins, base, code);
      if merged.Success? {
        if upload.Stored? || upload.wrote {
          blob := Some(merged.source);
        }
        if upload.Stored? {
          text := Some(merged.source);
          tasks := before.tasks[task := Uploaded(ticket, code, merged.source)];
        }
      }
    }

    /** The commit: the inserted row becomes visible. */
    method CommitWinner(ghost task: nat, code: Source, text: Source)
      requires Valid() && IsUploaded(Now(), task) && tasks[task].code == code && tasks[task].merged == text
      modifies this`rows, this`tasks, this`basis
      ensures Valid() && Now() == Step(builtins, old(Now()), Commit(task))
      ensures rows == old(rows) + [Row(code, text, Some(text), Some(text), false)]
    {
      CommitKeeps(builtins, Now(), task);
      basis := basis + [NextBasis(tasks[task].ticket.basis, |rows|)];
      rows := rows + [Row(code, text, Some(text), Some(text), false)];
      tasks := tasks - {task};
    }

    /** The whole transaction with nothing in between. done says whether a row was kept. */
    method PromoteWinner(ghost task: nat, base: Option<Source>, code: Source, upload: Upload) returns (done: bool)
      requires Valid() && IsReady(Now(), task) && tasks[task].ticket.base == BaseOf(base)
      modifies this
      ensures Valid() && Now() == Finish(builtins, old(Now()), task, code, upload)
      ensures done <==> |rows| == |old(rows)| + 1
      ensures done ==> LatestValid(rows) == Some(|old(rows)|) && blob == Some(rows[|old(rows)|].materialized)
      ensures !done ==> rows == old(rows)
    {
      var text := UploadWinner(task, base, code, upload);
      done := text.Some?;
      if done {
        CommitWinner(task, code, text.value);
      }
    }

    /** scan / quarantine_twin_extra_train: marks a row invalid and leaves the blob alone. */
    method QuarantineRow(i: nat)
      requires Valid() && i < |rows|
      modifies this`rows
      ensures Valid() && Now() == Step(builtins, old(Now()), Quarantine(i))
    {
      ghost var before := Now();
      rows := rows[i := rows[i].(invalid := true)];
      QuarantineKeeps(builtins, before, i);
    }

    /** The valid rows, oldest first. */
    method CollectValid() returns (ids: seq<nat>)
      ensures ids == ValidIds(rows)
    {
      ids := [];
      for i := 0 to |rows|
        invariant ids == ValidUpTo(rows, i)
      {
        if !rows[i].invalid {
          ids := ids + [i];
        }
      }
    }

    /** What the replay's query returns for these rows. */
    static function PromotionsAt(rows: seq<Row>, ids: seq<nat>): seq<Promotion>
      requires forall k :: 0 <= k < |ids| ==> ids[k] < |rows|
    {
      seq(|ids|, k requires 0 <= k < |ids| => Promotion(rows[ids[k]].code, rows[ids[k]].pipelineSha))
    }

    /** The record half of rebuild: the result goes on the latest valid row. */
    method RecordRebuild(best: Source)
      requires |basis| == |rows| && pending.Some? && pending.value.base == best && LatestValid(rows).Some?
      modifies this`rows, this`basis, this`pending
      ensures Now() == StepRebuildRecord(old(Now()))
    {
      var latest := FindLatestValid();
      var r := latest.value;
      rows := rows[r := rows[r].(materialized := best, materializedSha := Some(best))];
      basis := basis[r := pending.value.basis];
      pending := None;
    }

    /** The replay half of rebuild: the class of the valid rows, if there are any and it can be built. */
    method ReplayValid() returns (best: Option<Source>)
      ensures best == if ValidIds(rows) == [] || Replay(builtins, CodesAt(rows, ValidIds(rows))).Failure? then None
                      else Some(Replay(builtins, CodesAt(rows, ValidIds(rows))).source)
    {
      var ids := CollectValid();
      var promotions := PromotionsAt(rows, ids);
      var failed, replayed;
      best, failed, replayed := ReplayBestPipeline(builtins, promotions, None, false);
      assert promotions[..Upto(promotions, None)] == promotions;
      assert Codes(promotions) == CodesAt(rows, ids);
      if failed.Some? {
        best := None;
      }
    }

    /** The replay and upload half of rebuild. */
    method UploadRebuilt(upload: Upload) returns (best: Option<Source>)
      requires pending.None?
      modifies this`blob, this`pending
      ensures Now() == StepRebuildUpload(builtins, old(Now()), upload)
      ensures best.None? ==> pending.None?
      ensures best.Some? ==> upload.Stored? && pending.Some? && pending.value.base == best.value && LatestValid(rows).Some?
                             && Replay(builtins, CodesAt(rows, ValidIds(rows))) == Success(best.value)
    {
      best := ReplayValid();
      if best.Some? {
        assert ValidIds(rows)[0] in ValidIds(rows);
        if upload.Stored? || upload.wrote {
          blob := best;
        }
        if upload.Rejected? {
          best := None;
        } else {
          pending := Some(Ticket(best.value, Some(ValidIds(rows))));
        }
      }
    }

    /** Both halves of rebuild, with nothing in between. */
    method ReplayAndRecord(upload: Upload) returns (done: bool)
      requires |basis| == |rows| && pending.None?
      modifies this
      ensures Now() == StepRebuildRecord(StepRebuildUpload(builtins, old(Now()), upload))
      ensures done ==> upload.Stored? && LatestValid(old(rows)).Some?
                       && Replay(builtins, CodesAt(old(rows), ValidIds(old(rows)))).Success?
    {
      var best := UploadRebuilt(upload);
      done := best.Some?;
      if done {
        RecordRebuild(best.value);
      }
    }

    static lemma RebuildKeeps(builtins: set<string>, s: State, upload: Upload)
      requires Inv(builtins, s)
      ensures Inv(builtins, StepRebuildRecord(StepRebuildUpload(builtins, s, upload)))
    {
      RebuildUploadKeeps(builtins, s, upload);
      RebuildRecordKeeps(builtins, StepRebuildUpload(builtins, s, upload));
    }

    /** A rebuild that goes through. */
    static lemma RebuiltIsReplay(builtins: set<string>, s: State)
      requires Inv(builtins, s) && s.pending.None? && LatestValid(s.rows).Some?
      requires Replay(builtins, CodesAt(s.rows, ValidIds(s.rows))).Success?
      ensures var s' := StepRebuildRecord(StepRebuildUpload(builtins, s, Stored));
              && |s'.basis| == |s'.rows| && GuardPasses(s') && Clean(s') && s'.blob.Some?
              && Replay(builtins, CodesAt(s'.rows, ValidIds(s'.rows))) == Success(s'.blob.value)
    {
      RebuildKeeps(builtins, s, Stored);
      RebuildMakesClean(builtins, s);
      CleanBlobIsReplay(builtins, StepRebuildRecord(StepRebuildUpload(builtins, s, Stored)));
    }

    /** rebuild: replays the valid rows, uploads strictly, then records the result on the latest valid row. */
    method Rebuild(upload: Upload) returns (done: bool)
      requires Valid() && pending.None?
      modifies this
      ensures Valid()
      ensures Now() == Step(builtins, Step(builtins, old(Now()), RebuildUpload(upload)), RebuildRecord)
      ensures done ==> GuardPasses(Now()) && Clean(Now()) && blob.Some?
                       && Replay(builtins, CodesAt(rows, ValidIds(rows))) == Success(blob.value)
    {
      ghost var before := Now();
      RebuildKeeps(builtins, before, upload);
      done := ReplayAndRecord(upload);
      if done {
        RebuiltIsReplay(builtins, before);
      }
    }

    /** The half of freeze_latest after the merge. */
    method WriteFrozen(r: nat, code: Source, frozen: Source, writes: FreezeWrites) returns (done: bool)
      requires r < |rows| == |basis|
      modifies this
      ensures Now() == StoreFrozen(old(Now()), r, code, frozen, writes)
      ensures done <==> writes.reproduces && writes.updated && (writes.uploaded || old(blob) == Some(frozen))
    {
      ghost var before := Now();
      done := false;
      if !writes.reproduces {
        return;
      }
      if writes.uploaded {
        blob := Some(frozen);
      }
      if blob != Some(frozen) {
        return;
      }
      if !writes.updated {
        if writes.restored {
          blob := Some(rows[r].materialized);
        }
        return;
      }
      rows := rows[r := Row(code, frozen, Some(frozen), Some(frozen), false)];
      basis := if Refreezable(before, r) then basis else basis[r := None];
      done := true;
    }

    /** The half of freeze_latest up to the merge: the frozen class of the latest valid row, if there is one to
        make. */
    method BuildFrozen(params: map<string, int>, roundTrips: bool) returns (r: nat, frozen: Option<Source>)
      ensures frozen.None? <==>
                || LatestValid(rows).None? || params == map[]
                || IsFrozenTo(rows[LatestValid(rows).value].materialized, params)
                || Merge(builtins, rows[LatestValid(rows).value].materialized, WithFrozen(FREEZE_ONLY, Some(params), roundTrips)).Failure?
      ensures frozen.Some? ==>
                && LatestValid(rows) == Some(r)
                && Merge(builtins, rows[r].materialized, WithFrozen(FREEZE_ONLY, Some(params), roundTrips)) == Success(frozen.value)
    {
      r, frozen := 0, None;
      var latest := FindLatestValid();
      if latest.None? || params == map[] {
        return;
      }
      r := latest.value;
      if IsFrozenTo(rows[r].materialized, params) {
        return;
      }
      var merged := MaterializeBestPipeline(builtins, Some(rows[r].materialized), WithFrozen(FREEZE_ONLY, Some(params), roundTrips));
      if merged.Success? {
        frozen := Some(merged.source);
      }
    }

    /** The steps of freeze_latest in their order. */
    method BuildAndWriteFrozen(params: map<string, int>, roundTrips: bool, writes: FreezeWrites) returns (done: bool)
      requires tasks == map[] && pending.None? && |rows| == |basis|
      modifies this
      ensures Now() == StepFreeze(builtins, old(Now()), params, roundTrips, writes)
      ensures done <==> FreezeCompletes(builtins, old(Now()), params, roundTrips, writes)
      ensures !done ==> rows == old(rows)
    {
      var r, frozen := BuildFrozen(params, roundTrips);
      if frozen.None? {
        return false;
      }
      done := WriteFrozen(r, WithFrozen(rows[r].code, Some(params), roundTrips), frozen.value, writes);
    }

    /** freeze_latest: builds the frozen class, evaluates it, uploads it without strictness, reads it back, and
        updates the row; when the update fails it puts the row's class back as far as it can. */
    method FreezeLatestRow(params: map<string, int>, roundTrips: bool, writes: FreezeWrites) returns (done: bool)
      requires Valid() && tasks == map[] && pending.None?
      modifies this
      ensures Valid()
      ensures Now() == Step(builtins, old(Now()), FreezeLatest(params, roundTrips, writes))
      ensures done <==> FreezeCompletes(builtins, old(Now()), params, roundTrips, writes)
      ensures done ==> GuardPasses(Now())
      ensures !done ==> rows == old(rows)
    {
      ghost var before := Now();
      FreezeKeeps(builtins, before, params, roundTrips, writes);
      done := BuildAndWriteFrozen(params, roundTrips, writes);
      if done { FinishedFreeze(builtins, before, params, roundTrips, writes); }
    }
  }
}
