/** CPU projections: the watchdog's (runtime/isolate.py) and the harness's after fold 1
    (evaluator/harness.py). */
module Projection {
  import opened Python

  /** A line of the progress log, with the CPU seconds it carries. */
  datatype Line =
    | PreselectStart(total: nat, cpu: real)
    | PreselectFit(candidate: nat, cpu: real)
    | PreselectDone(cpu: real)
    | FoldDone(cpu: real)
    | CvDone(cpu: real)
    | OtherLine

  /** A projected total, made during the given fold. */
  datatype Estimate = Estimate(total: real, fold: nat)

  // ---- the scan

  /** After reading the lines: where the fold loop started and the marks of the folds done. */
  datatype Scan = Scan(loopStart: Option<real>, marks: seq<real>)

  function ScanLine(s: Scan, line: Line): Scan {
    match line
    case PreselectDone(cpu) => Scan(Some(cpu), [])
    case FoldDone(cpu) => s.(marks := s.marks + [cpu])
    case _ => s
  }

  function ScanLog(log: seq<Line>): Scan {
    if log == [] then Scan(None, []) else ScanLine(ScanLog(log[..|log| - 1]), log[|log| - 1])
  }

  predicate Ended(log: seq<Line>) {
    exists i :: 0 <= i < |log| && log[i].CvDone?
  }

  function Max(a: real, b: real): real {
    if a >= b then a else b
  }

  function LastMark(start: real, marks: seq<real>): real {
    if marks == [] then start else marks[|marks| - 1]
  }

  function PerFold(start: real, marks: seq<real>, cpuNow: real): real {
    var last := LastMark(start, marks);
    Max(cpuNow - last, if marks == [] then 0.0 else (last - start) / |marks| as real)
  }

  /** The last mark plus the folds left at the given cost each. */
  function Total(last: real, left: nat, perFold: real): real {
    last + left as real * perFold
  }

  /** The projected total and the number of the fold in progress, while folds are running. */
  function Projected(s: Scan, nSplits: nat, cpuNow: real): Option<Estimate> {
    if s.loopStart.None? || |s.marks| >= nSplits then None
    else
      var start := s.loopStart.value;
      Some(Estimate(Total(LastMark(start, s.marks), nSplits - |s.marks|, PerFold(start, s.marks, cpuNow)), |s.marks| + 1))
  }

  function ProjectedOf(log: seq<Line>, nSplits: nat, cpuNow: real): Option<Estimate> {
    if Ended(log) then None else Projected(ScanLog(log), nSplits, cpuNow)
  }

  /** _projected_cpu */
  method ProjectedCpu(log: seq<Line>, nSplits: nat, cpuNow: real) returns (r: Option<Estimate>)
    ensures r == ProjectedOf(log, nSplits, cpuNow)
  {
    var loopStart: Option<real> := None;
    var done: seq<real> := [];
    for i := 0 to |log|
      invariant ScanLog(log[..i]) == Scan(loopStart, done)
      invariant forall j :: 0 <= j < i ==> !log[j].CvDone?
    {
      assert log[..i + 1][..i] == log[..i];
      match log[i]
      case PreselectDone(cpu) => loopStart, done := Some(cpu), [];
      case FoldDone(cpu) => done := done + [cpu];
      case CvDone(_) => return None;
      case _ =>
    }
    assert log[..|log|] == log;
    if loopStart.None? || |done| >= nSplits {
      return None;
    }
    var finished := |done|;
    var last := if done == [] then loopStart.value else done[|done| - 1];
    var average := if finished > 0 then (last - loopStart.value) / finished as real else 0.0;
    var perFold := Max(cpuNow - last, average);
    assert !Ended(log) && ScanLog(log) == Scan(loopStart, done);
    assert last == LastMark(loopStart.value, done);
    assert perFold == PerFold(loopStart.value, done, cpuNow);
    r := Some(Estimate(Total(last, nSplits - finished, perFold), finished + 1));
  }

  // ---- what it projects

  predicate Nondecreasing(xs: seq<real>) {
    forall i, j :: 0 <= i < j < |xs| ==> xs[i] <= xs[j]
  }

  /** The marks of a scan do not fall. */
  predicate InOrder(s: Scan) {
    s.loopStart.Some? && Nondecreasing([s.loopStart.value] + s.marks)
  }

  lemma LastIsAfterStart(s: Scan)
    requires InOrder(s)
    ensures s.loopStart.value <= LastMark(s.loopStart.value, s.marks)
  {
    var xs := [s.loopStart.value] + s.marks;
    assert xs[0] <= xs[|xs| - 1] || |xs| == 1;
  }

  lemma QuotientNonnegative(a: real, b: real)
    requires a >= 0.0 && b > 0.0
    ensures a / b >= 0.0
  {}

  lemma AtLeastOnce(k: real, x: real)
    requires k >= 1.0 && x >= 0.0
    ensures k * x >= x
  {}

  /** One fold at least is left, and it costs at least what it has used so far. */
  lemma TotalCovers(last: real, left: nat, perFold: real, cpuNow: real)
    requires left >= 1 && perFold >= 0.0 && cpuNow <= last + perFold
    ensures Total(last, left, perFold) >= cpuNow
  {
    var folds := left as real;
    AtLeastOnce(folds, perFold);
  }

  lemma PerFoldBounds(start: real, marks: seq<real>, cpuNow: real)
    requires start <= LastMark(start, marks)
    ensures PerFold(start, marks, cpuNow) >= 0.0
    ensures cpuNow <= LastMark(start, marks) + PerFold(start, marks, cpuNow)
  {
    if marks != [] { QuotientNonnegative(LastMark(start, marks) - start, |marks| as real); }
  }

  /** The projection is never below what has been used. */
  lemma ProjectionCoversUse(s: Scan, nSplits: nat, cpuNow: real)
    requires InOrder(s) && Projected(s, nSplits, cpuNow).Some?
    ensures Projected(s, nSplits, cpuNow).value.total >= cpuNow
  {
    LastIsAfterStart(s);
    var start, last := s.loopStart.value, LastMark(s.loopStart.value, s.marks);
    PerFoldBounds(start, s.marks, cpuNow);
    TotalCovers(last, nSplits - |s.marks|, PerFold(start, s.marks, cpuNow), cpuNow);
  }

  /** CPU readings do not fall along the log, and cpuNow is the latest of them. */
  predicate ReadingsInOrder(log: seq<Line>, cpuNow: real) {
    && (forall i, j :: 0 <= i < j < |log| && !log[i].OtherLine? && !log[j].OtherLine? ==> log[i].cpu <= log[j].cpu)
    && (forall i :: 0 <= i < |log| && !log[i].OtherLine? ==> log[i].cpu <= cpuNow)
  }

  lemma {:induction false} ScanInOrder(log: seq<Line>, cpuNow: real)
    requires ReadingsInOrder(log, cpuNow) && ScanLog(log).loopStart.Some?
    ensures InOrder(ScanLog(log)) && LastMark(ScanLog(log).loopStart.value, ScanLog(log).marks) <= cpuNow
  {
    if log != [] {
      var init, line := log[..|log| - 1], log[|log| - 1];
      if !line.PreselectDone? {
        ScanInOrder(init, if line.FoldDone? then line.cpu else cpuNow);
        if line.FoldDone? {
          var s := ScanLog(init);
          NondecreasingNext([s.loopStart.value] + s.marks, line.cpu);
          assert [s.loopStart.value] + (s.marks + [line.cpu]) == [s.loopStart.value] + s.marks + [line.cpu];
        }
      }
    }
  }

  lemma NondecreasingNext(xs: seq<real>, x: real)
    requires Nondecreasing(xs) && |xs| > 0 && xs[|xs| - 1] <= x
    ensures Nondecreasing(xs + [x])
  {
    assert forall i :: 0 <= i < |xs| ==> xs[i] <= xs[|xs| - 1];
  }

  /** For any log whose readings do not fall: the projection is never below what has been used. */
  lemma LogProjectionCoversUse(log: seq<Line>, nSplits: nat, cpuNow: real)
    requires ReadingsInOrder(log, cpuNow) && ProjectedOf(log, nSplits, cpuNow).Some?
    ensures ProjectedOf(log, nSplits, cpuNow).value.total >= cpuNow
  {
    ScanInOrder(log, cpuNow);
    ProjectionCoversUse(ScanLog(log), nSplits, cpuNow);
  }

  lemma Scaled(k: real, x: real, y: real)
    requires k >= 0.0 && x <= y
    ensures k * x <= k * y
  {}

  predicate ChangesScan(line: Line) {
    line.PreselectDone? || line.FoldDone? || line.CvDone?
  }

  lemma {:induction false} QuietLinesChangeNothing(log: seq<Line>, more: seq<Line>)
    requires forall i :: 0 <= i < |more| ==> !ChangesScan(more[i])
    ensures ScanLog(log + more) == ScanLog(log)
    ensures Ended(log + more) <==> Ended(log)
  {
    if more == [] {
      assert log + more == log;
    } else {
      var init := more[..|more| - 1];
      assert (log + more)[..|log + more| - 1] == log + init;
      QuietLinesChangeNothing(log, init);
      assert (log + more)[|log + more| - 1] == more[|more| - 1];
      if Ended(log) {
        var i :| 0 <= i < |log| && log[i].CvDone?;
        assert (log + more)[i].CvDone?;
      }
    }
  }

  /** Within a fold the projection only grows: it can fall only where a fold ends. */
  lemma ProjectionGrowsWithinFold(log: seq<Line>, more: seq<Line>, nSplits: nat, before: real, after: real)
    requires before <= after
    requires forall i :: 0 <= i < |more| ==> !ChangesScan(more[i])
    requires ProjectedOf(log, nSplits, before).Some?
    ensures ProjectedOf(log + more, nSplits, after).Some?
    ensures ProjectedOf(log, nSplits, before).value.fold == ProjectedOf(log + more, nSplits, after).value.fold
    ensures ProjectedOf(log, nSplits, before).value.total <= ProjectedOf(log + more, nSplits, after).value.total
  {
    QuietLinesChangeNothing(log, more);
    var s := ScanLog(log);
    var start := s.loopStart.value;
    PerFoldGrows(start, s.marks, before, after);
    TotalGrows(LastMark(start, s.marks), nSplits - |s.marks|, PerFold(start, s.marks, before), PerFold(start, s.marks, after));
  }

  lemma PerFoldGrows(start: real, marks: seq<real>, before: real, after: real)
    requires before <= after
    ensures PerFold(start, marks, before) <= PerFold(start, marks, after)
  {}

  lemma TotalGrows(last: real, left: nat, before: real, after: real)
    requires before <= after
    ensures Total(last, left, before) <= Total(last, left, after)
  {
    Scaled(left as real, before, after);
  }

  // ---- from fold 2 on

  /** The average of the folds done. */
  function AverageFold(start: real, marks: seq<real>): real
    requires marks != []
  {
    (marks[|marks| - 1] - start) / |marks| as real
  }

  /** Once folds are done, the folds left are projected at no less than their average each, and at no less than what
      the fold in progress has used. */
  lemma ProjectsTheFoldsDone(start: real, marks: seq<real>, nSplits: nat, cpuNow: real)
    requires 0 < |marks| < nSplits
    ensures var last, left := marks[|marks| - 1], (nSplits - |marks|) as real;
            var r := Projected(Scan(Some(start), marks), nSplits, cpuNow);
            && r.Some? && r.value.fold == |marks| + 1
            && r.value.total >= last + left * AverageFold(start, marks)
            && r.value.total >= last + left * (cpuNow - last)
            && (r.value.total == last + left * AverageFold(start, marks) || r.value.total == last + left * (cpuNow - last))
  {
    var last, left := marks[|marks| - 1], (nSplits - |marks|) as real;
    Scaled(left, AverageFold(start, marks), PerFold(start, marks, cpuNow));
    Scaled(left, cpuNow - last, PerFold(start, marks, cpuNow));
  }

  /** Each fold cost c. */
  predicate EvenFolds(start: real, marks: seq<real>, c: real) {
    forall i :: 0 <= i < |marks| ==> marks[i] == start + (i + 1) as real * c
  }

  lemma Quotient(k: real, c: real)
    requires k > 0.0
    ensures (k * c) / k == c
  {}

  lemma Distributes(n: real, a: real, b: real, c: real)
    requires n == a + b
    ensures n * c == a * c + b * c
  {}

  /** Folds of one cost each are projected exactly: while the next one has not cost more, the total is that of all
      folds at that cost. */
  lemma EvenFoldsAreProjectedExactly(start: real, marks: seq<real>, c: real, nSplits: nat, cpuNow: real)
    requires 0 < |marks| < nSplits && EvenFolds(start, marks, c) && cpuNow <= marks[|marks| - 1] + c
    ensures var r := Projected(Scan(Some(start), marks), nSplits, cpuNow);
            r.Some? && r.value.total == start + nSplits as real * c && r.value.fold == |marks| + 1
  {
    var k, left := |marks| as real, (nSplits - |marks|) as real;
    assert marks[|marks| - 1] - start == k * c;
    Quotient(k, c);
    assert PerFold(start, marks, cpuNow) == c;
    Distributes(nSplits as real, k, left, c);
    assert Total(marks[|marks| - 1], nSplits - |marks|, c) == start + k * c + left * c;
  }

  /** The harness projects the same for such folds. */
  lemma EvenFoldsByTheHarness(start: real, c: real, nSplits: nat)
    requires nSplits >= 1
    ensures HarnessProjection(start, start + c, nSplits) == start + nSplits as real * c
  {
    var left := (nSplits - 1) as real;
    Distributes(nSplits as real, 1.0, left, c);
  }

  // ---- what the scan finds

  /** The marks of the folds done, in order. */
  function FoldMarks(log: seq<Line>): seq<real> {
    if log == [] then []
    else if log[0].FoldDone? then [log[0].cpu] + FoldMarks(log[1..])
    else FoldMarks(log[1..])
  }

  lemma {:induction false} FoldMarksNext(log: seq<Line>, line: Line)
    ensures FoldMarks(log + [line]) == FoldMarks(log) + if line.FoldDone? then [line.cpu] else []
  {
    if log == [] {
      assert [] + [line] == [line] && [line][1..] == [];
    } else {
      assert (log + [line])[1..] == log[1..] + [line];
      FoldMarksNext(log[1..], line);
    }
  }

  /** Whatever came before: from the last end of a preselection on, its reading is the start and the folds done since
      are the marks. */
  lemma {:induction false} ScanFromLastStart(before: seq<Line>, start: real, since: seq<Line>)
    requires forall i :: 0 <= i < |since| ==> !since[i].PreselectDone?
    ensures ScanLog(before + [PreselectDone(start)] + since) == Scan(Some(start), FoldMarks(since))
  {
    var log := before + [PreselectDone(start)] + since;
    if since == [] {
      assert log[..|log| - 1] == before;
    } else {
      var init, line := since[..|since| - 1], since[|since| - 1];
      assert log[..|log| - 1] == before + [PreselectDone(start)] + init;
      ScanFromLastStart(before, start, init);
      FoldMarksNext(init, line);
      assert since == init + [line];
    }
  }

  lemma {:induction false} ScanWithoutStart(log: seq<Line>)
    requires forall i :: 0 <= i < |log| ==> !log[i].PreselectDone?
    ensures ScanLog(log).loopStart.None?
  {
    if log != [] { ScanWithoutStart(log[..|log| - 1]); }
  }

  /** There is a projection exactly while folds are running: a preselection has ended, fewer folds than there are have
      been done since, and cross-validation is not over. */
  lemma ProjectsExactlyWhileFoldsRun(before: seq<Line>, start: real, since: seq<Line>, nSplits: nat, cpuNow: real)
    requires forall i :: 0 <= i < |since| ==> !since[i].PreselectDone?
    ensures var log := before + [PreselectDone(start)] + since;
            ProjectedOf(log, nSplits, cpuNow).Some? <==> |FoldMarks(since)| < nSplits && forall i :: 0 <= i < |log| ==> !log[i].CvDone?
  {
    ScanFromLastStart(before, start, since);
  }

  lemma NothingProjectedBeforeFolds(log: seq<Line>, nSplits: nat, cpuNow: real)
    requires forall i :: 0 <= i < |log| ==> !log[i].PreselectDone?
    ensures ProjectedOf(log, nSplits, cpuNow).None?
  {
    ScanWithoutStart(log);
  }

  // ---- fold 1 against the harness

  /** _after_first_fold: CPU at the end of fold 1, loopStart its own mark at the start of the loop. */
  function HarnessProjection(loopStart: real, cpuAfterFold1: real, nSplits: nat): real {
    cpuAfterFold1 + (cpuAfterFold1 - loopStart) * (nSplits - 1) as real
  }

  function Fold1Projection(loopStart: real, cpuNow: real, nSplits: nat): Option<Estimate> {
    Projected(Scan(Some(loopStart), []), nSplits, cpuNow)
  }

  lemma Fold1ProjectionIs(loopStart: real, cpuNow: real, nSplits: nat)
    requires nSplits >= 1 && cpuNow >= loopStart
    ensures Fold1Projection(loopStart, cpuNow, nSplits) == Some(Estimate(Total(loopStart, nSplits, cpuNow - loopStart), 1))
  {
    assert PerFold(loopStart, [], cpuNow) == cpuNow - loopStart;
  }

  /** During fold 1 the watchdog's projection exceeds the harness's projection at its end by at most
      (nSplits - 1) times the gap between the two loop-start marks. */
  lemma Fold1WithinGap(watchStart: real, harnessStart: real, cpuNow: real, cpuAfterFold1: real, nSplits: nat)
    requires nSplits >= 1 && watchStart <= harnessStart && watchStart <= cpuNow <= cpuAfterFold1
    ensures Fold1Projection(watchStart, cpuNow, nSplits).Some?
    ensures Fold1Projection(watchStart, cpuNow, nSplits).value.total <=
            HarnessProjection(harnessStart, cpuAfterFold1, nSplits) + (nSplits - 1) as real * (harnessStart - watchStart)
  {
    Fold1ProjectionIs(watchStart, cpuNow, nSplits);
    var k := (nSplits - 1) as real;
    assert nSplits as real == k + 1.0;
    Scaled(k, cpuNow - watchStart, cpuAfterFold1 - watchStart);
    assert k * (cpuAfterFold1 - watchStart) == (cpuAfterFold1 - harnessStart) * k + k * (harnessStart - watchStart);
  }

  /** The documentation says the harness's projection is at least the watchdog's throughout fold 1. That holds
      exactly when there is one fold or the watchdog's mark is no earlier than the harness's. */
  lemma Fold1NeverAboveHarnessExactly(watchStart: real, harnessStart: real, cpuAfterFold1: real, nSplits: nat)
    requires nSplits >= 1 && watchStart <= harnessStart <= cpuAfterFold1
    ensures (forall cpuNow: real :: watchStart <= cpuNow <= cpuAfterFold1 ==>
               Fold1Projection(watchStart, cpuNow, nSplits).Some? &&
               Fold1Projection(watchStart, cpuNow, nSplits).value.total <= HarnessProjection(harnessStart, cpuAfterFold1, nSplits))
            <==> nSplits == 1 || watchStart == harnessStart
  {
    var k := (nSplits - 1) as real;
    var gap := harnessStart - watchStart;
    Fold1ProjectionIs(watchStart, cpuAfterFold1, nSplits);
    EndOfFold1(watchStart, harnessStart, cpuAfterFold1, nSplits);
    if nSplits == 1 || watchStart == harnessStart {
      assert k * gap == 0.0;
      forall cpuNow: real | watchStart <= cpuNow <= cpuAfterFold1
        ensures Fold1Projection(watchStart, cpuNow, nSplits).Some? &&
                Fold1Projection(watchStart, cpuNow, nSplits).value.total <= HarnessProjection(harnessStart, cpuAfterFold1, nSplits)
      {
        Fold1WithinGap(watchStart, harnessStart, cpuNow, cpuAfterFold1, nSplits);
      }
    } else {
      Positive(k, gap);
    }
  }

  lemma Positive(a: real, b: real)
    requires a > 0.0 && b > 0.0
    ensures a * b > 0.0
  {}

  /** At the very end of fold 1 the difference is the whole gap. */
  lemma EndOfFold1(watchStart: real, harnessStart: real, cpuAfterFold1: real, nSplits: nat)
    requires nSplits >= 1 && watchStart <= harnessStart <= cpuAfterFold1
    ensures Fold1Projection(watchStart, cpuAfterFold1, nSplits).Some?
    ensures Fold1Projection(watchStart, cpuAfterFold1, nSplits).value.total ==
            HarnessProjection(harnessStart, cpuAfterFold1, nSplits) + (nSplits - 1) as real * (harnessStart - watchStart)
  {
    Fold1ProjectionIs(watchStart, cpuAfterFold1, nSplits);
    var k := (nSplits - 1) as real;
    assert nSplits as real == k + 1.0;
    assert k * (cpuAfterFold1 - watchStart) == (cpuAfterFold1 - harnessStart) * k + k * (harnessStart - watchStart);
  }

  // ---- preselection

  datatype Preselect = Preselect(start: Option<real>, last: real, done: nat, total: nat)

  function PreselectLine(s: Preselect, line: Line): Preselect {
    match line
    case PreselectStart(total, cpu) => Preselect(Some(cpu), cpu, 0, total)
    case PreselectFit(candidate, cpu) => s.(last := cpu, done := candidate)
    case _ => s
  }

  function PreselectLog(log: seq<Line>): Preselect {
    if log == [] then Preselect(None, 0.0, 0, 0) else PreselectLine(PreselectLog(log[..|log| - 1]), log[|log| - 1])
  }

  predicate PreselectOver(log: seq<Line>) {
    exists i :: 0 <= i < |log| && (log[i].PreselectDone? || log[i].CvDone?)
  }

  /** The estimated CPU at the end of preselection: what is done, the candidate in progress, and the average for
      the rest. */
  function PreselectEstimate(s: Preselect, cpuNow: real): Option<Estimate> {
    if s.start.None? || s.done >= s.total then None
    else if s.done == 0 then Some(Estimate(cpuNow, 1))
    else
      var average := (s.last - s.start.value) / s.done as real;
      Some(Estimate(Total(s.last + Max(cpuNow - s.last, average), s.total - s.done - 1, average), s.done + 1))
  }

  function PreselectOf(log: seq<Line>, cpuNow: real): Option<Estimate> {
    if PreselectOver(log) then None else PreselectEstimate(PreselectLog(log), cpuNow)
  }

  /** _projected_preselect_cpu */
  method ProjectedPreselectCpu(log: seq<Line>, cpuNow: real) returns (r: Option<Estimate>)
    ensures r == PreselectOf(log, cpuNow)
  {
    var start: Option<real>, last, done: nat, total: nat := None, 0.0, 0, 0;
    for i := 0 to |log|
      invariant PreselectLog(log[..i]) == Preselect(start, last, done, total)
      invariant forall j :: 0 <= j < i ==> !log[j].PreselectDone? && !log[j].CvDone?
    {
      assert log[..i + 1][..i] == log[..i];
      match log[i]
      case PreselectStart(n, cpu) => start, last, done, total := Some(cpu), cpu, 0, n;
      case PreselectFit(candidate, cpu) => last, done := cpu, candidate;
      case PreselectDone(_) => return None;
      case CvDone(_) => return None;
      case _ =>
    }
    assert log[..|log|] == log;
    assert !PreselectOver(log);
    r := PreselectEstimate(Preselect(start, last, done, total), cpuNow);
  }

  /** The preselection estimate is never below what has been used. */
  lemma PreselectCoversUse(s: Preselect, cpuNow: real)
    requires s.start.Some? && s.start.value <= s.last
    requires PreselectEstimate(s, cpuNow).Some?
    ensures PreselectEstimate(s, cpuNow).value.total >= cpuNow
  {
    if s.done > 0 {
      var average := (s.last - s.start.value) / s.done as real;
      QuotientNonnegative(s.last - s.start.value, s.done as real);
      Scaled((s.total - s.done - 1) as real, 0.0, average);
    }
  }

  lemma {:induction false} PreselectLogInOrder(log: seq<Line>, cpuNow: real)
    requires ReadingsInOrder(log, cpuNow) && PreselectLog(log).start.Some?
    ensures PreselectLog(log).start.value <= PreselectLog(log).last <= cpuNow
  {
    var init, line := log[..|log| - 1], log[|log| - 1];
    if !line.PreselectStart? {
      PreselectLogInOrder(init, if line.PreselectFit? then line.cpu else cpuNow);
    }
  }

  lemma LogPreselectCoversUse(log: seq<Line>, cpuNow: real)
    requires ReadingsInOrder(log, cpuNow) && PreselectOf(log, cpuNow).Some?
    ensures PreselectOf(log, cpuNow).value.total >= cpuNow
  {
    PreselectLogInOrder(log, cpuNow);
    PreselectCoversUse(PreselectLog(log), cpuNow);
  }

  /** Before the first fit is over the estimate is what has been used; after it, the fits left are estimated at their
      average each, and the one in progress at no less than it has used. */
  lemma EstimatesTheFitsDone(s: Preselect, cpuNow: real)
    requires s.start.Some? && s.done < s.total
    ensures var r := PreselectEstimate(s, cpuNow);
            && r.Some? && r.value.fold == s.done + 1
            && (s.done == 0 ==> r.value.total == cpuNow)
            && (s.done > 0 ==>
                  var average, rest := (s.last - s.start.value) / s.done as real, (s.total - s.done - 1) as real;
                  && r.value.total >= s.last + (s.total - s.done) as real * average
                  && r.value.total >= cpuNow + rest * average
                  && (r.value.total == s.last + (s.total - s.done) as real * average || r.value.total == cpuNow + rest * average))
  {
    if s.done > 0 {
      var average, rest := (s.last - s.start.value) / s.done as real, (s.total - s.done - 1) as real;
      Distributes((s.total - s.done) as real, 1.0, rest, average);
    }
  }

  /** Fits of one cost each are estimated exactly. */
  lemma EvenFitsAreEstimatedExactly(start: real, c: real, done: nat, total: nat, cpuNow: real)
    requires 0 < done < total && cpuNow <= start + done as real * c + c
    ensures var r := PreselectEstimate(Preselect(Some(start), start + done as real * c, done, total), cpuNow);
            r.Some? && r.value.total == start + total as real * c && r.value.fold == done + 1
  {
    var k, rest := done as real, (total - done - 1) as real;
    var last := start + k * c;
    Quotient(k, c);
    assert (last - start) / k == c;
    Distributes(k + 1.0, k, 1.0, c);
    Distributes(total as real, k + 1.0, rest, c);
    assert Total(last + Max(cpuNow - last, c), total - done - 1, c) == last + c + rest * c;
  }

  predicate ChangesPreselect(line: Line) {
    line.PreselectStart? || line.PreselectFit?
  }

  lemma {:induction false} QuietPreselect(log: seq<Line>, more: seq<Line>)
    requires forall i :: 0 <= i < |more| ==> !ChangesPreselect(more[i])
    ensures PreselectLog(log + more) == PreselectLog(log)
  {
    if more == [] {
      assert log + more == log;
    } else {
      var init := more[..|more| - 1];
      assert (log + more)[..|log + more| - 1] == log + init;
      QuietPreselect(log, init);
    }
  }

  lemma {:induction false} PreselectStarted(before: seq<Line>, total: nat, cpu: real, since: seq<Line>)
    requires forall i :: 0 <= i < |since| ==> !since[i].PreselectStart?
    ensures var s := PreselectLog(before + [PreselectStart(total, cpu)] + since); s.start == Some(cpu) && s.total == total
    ensures since == [] ==> PreselectLog(before + [PreselectStart(total, cpu)] + since) == Preselect(Some(cpu), cpu, 0, total)
  {
    var log := before + [PreselectStart(total, cpu)] + since;
    if since == [] {
      assert log[..|log| - 1] == before;
    } else {
      assert log[..|log| - 1] == before + [PreselectStart(total, cpu)] + since[..|since| - 1];
      PreselectStarted(before, total, cpu, since[..|since| - 1]);
    }
  }

  /** Whatever came before: the last start gives the number of candidates, and the last fit since, if there is one,
      where it is; there is an estimate exactly until the last candidate is fitted or the preselection is over. */
  lemma PreselectFromLastStart(before: seq<Line>, total: nat, start: real, since: seq<Line>, candidate: nat, cpu: real, quiet: seq<Line>, cpuNow: real)
    requires forall i :: 0 <= i < |since| ==> !since[i].PreselectStart?
    requires forall i :: 0 <= i < |quiet| ==> !ChangesPreselect(quiet[i])
    ensures var log := before + [PreselectStart(total, start)] + since + [PreselectFit(candidate, cpu)] + quiet;
            && PreselectLog(log) == Preselect(Some(start), cpu, candidate, total)
            && (PreselectOf(log, cpuNow).Some? <==> candidate < total && forall i :: 0 <= i < |log| ==> !log[i].PreselectDone? && !log[i].CvDone?)
    ensures PreselectLog(before + [PreselectStart(total, start)] + quiet) == Preselect(Some(start), start, 0, total)
  {
    var fits := before + [PreselectStart(total, start)] + since;
    PreselectStarted(before, total, start, since);
    assert (fits + [PreselectFit(candidate, cpu)])[..|fits|] == fits;
    QuietPreselect(fits + [PreselectFit(candidate, cpu)], quiet);
    PreselectStarted(before, total, start, []);
    assert before + [PreselectStart(total, start)] + [] == before + [PreselectStart(total, start)];
    QuietPreselect(before + [PreselectStart(total, start)], quiet);
  }

  // ---- the watchdog

  /** What one poll sees; remaining is the wall time left, exits whether the process ends before the next poll. */
  datatype Poll = Poll(rss: Option<nat>, cpu: Option<real>, log: seq<Line>, remaining: real, exits: bool)

  datatype Limits = Limits(nSplits: nat, cpuBudget: real, rss: nat, projection: Option<real>, preselectFraction: real)

  datatype Decision = Continue | Exited | MemoryKill | CpuKill | FoldKill(fold: nat) | PreselectKill(candidate: nat) | TimeoutKill

  predicate Above(e: Option<Estimate>, limit: real) {
    e.Some? && e.value.total > limit
  }

  /** A limit of zero counts as no limit. */
  predicate Projecting(l: Limits) {
    l.projection.Some? && l.projection.value != 0.0
  }

  function ProjectionDecision(l: Limits, p: Poll): Decision
    requires p.cpu.Some? && Projecting(l)
  {
    var cpu := p.cpu.value;
    if Above(ProjectedOf(p.log, l.nSplits, cpu), l.projection.value) then
      FoldKill(ProjectedOf(p.log, l.nSplits, cpu).value.fold)
    else if Above(PreselectOf(p.log, cpu), l.cpuBudget * l.preselectFraction) then
      PreselectKill(PreselectOf(p.log, cpu).value.fold)
    else Continue
  }

  /** The checks of one poll in their order: memory, CPU, projections, wall time, exit. */
  function Decide(l: Limits, p: Poll): Decision {
    if p.rss.Some? && p.rss.value > l.rss then MemoryKill
    else if p.cpu.Some? && p.cpu.value > l.cpuBudget then CpuKill
    else if p.cpu.Some? && Projecting(l) && ProjectionDecision(l, p) != Continue then ProjectionDecision(l, p)
    else if p.remaining <= 0.0 then TimeoutKill
    else if p.exits then Exited
    else Continue
  }

  predicate WithinReadings(l: Limits, p: Poll) {
    (p.rss.Some? ==> p.rss.value <= l.rss) && (p.cpu.Some? ==> p.cpu.value <= l.cpuBudget)
  }

  /** The projection of the folds is above its limit; a limit that is missing or zero is none. */
  predicate FoldAbove(l: Limits, p: Poll) {
    && p.cpu.Some? && l.projection.Some? && l.projection.value != 0.0
    && var e := ProjectedOf(p.log, l.nSplits, p.cpu.value); e.Some? && e.value.total > l.projection.value
  }

  /** The estimate of the preselection is above its share of the budget; it is looked at only under such a limit. */
  predicate PreselectAbove(l: Limits, p: Poll) {
    && p.cpu.Some? && l.projection.Some? && l.projection.value != 0.0
    && var e := PreselectOf(p.log, p.cpu.value); e.Some? && e.value.total > l.cpuBudget * l.preselectFraction
  }

  /** What each decision says about the poll: a run goes on exactly when no reading and no projection is above its
      limit, time is left and the process is running; it ends by itself exactly when all but the last holds. */
  lemma DecisionsMean(l: Limits, p: Poll)
    ensures var fine := WithinReadings(l, p) && !FoldAbove(l, p) && !PreselectAbove(l, p);
            && (Decide(l, p) == Continue <==> fine && p.remaining > 0.0 && !p.exits)
            && (Decide(l, p) == Exited <==> fine && p.remaining > 0.0 && p.exits)
            && (Decide(l, p) == TimeoutKill <==> fine && p.remaining <= 0.0)
            && (Decide(l, p) == MemoryKill <==> p.rss.Some? && p.rss.value > l.rss)
            && (Decide(l, p) == CpuKill <==> (p.rss.Some? ==> p.rss.value <= l.rss) && p.cpu.Some? && p.cpu.value > l.cpuBudget)
            && (Decide(l, p).FoldKill? <==> WithinReadings(l, p) && FoldAbove(l, p))
            && (Decide(l, p).PreselectKill? <==> WithinReadings(l, p) && !FoldAbove(l, p) && PreselectAbove(l, p))
            && (Decide(l, p).FoldKill? ==> Decide(l, p).fold == ProjectedOf(p.log, l.nSplits, p.cpu.value).value.fold)
            && (Decide(l, p).PreselectKill? ==> Decide(l, p).candidate == PreselectOf(p.log, p.cpu.value).value.fold)
  {}

  /** The largest memory and CPU readings among the first n polls. */
  function PeakRss(polls: seq<Poll>, n: nat): nat
    requires n <= |polls|
  {
    if n == 0 then 0
    else
      var earlier := PeakRss(polls, n - 1);
      match polls[n - 1].rss
      case Some(rss) => if rss > earlier then rss else earlier
      case None => earlier
  }

  function PeakCpu(polls: seq<Poll>, n: nat): real
    requires n <= |polls|
  {
    if n == 0 then 0.0
    else
      var earlier := PeakCpu(polls, n - 1);
      match polls[n - 1].cpu
      case Some(cpu) => Max(earlier, cpu)
      case None => earlier
  }

  lemma {:induction false} PeakRssBounds(polls: seq<Poll>, n: nat)
    requires n <= |polls|
    ensures forall i :: 0 <= i < n && polls[i].rss.Some? ==> polls[i].rss.value <= PeakRss(polls, n)
    ensures PeakRss(polls, n) == 0 || exists i :: 0 <= i < n && polls[i].rss == Some(PeakRss(polls, n))
  {
    if n > 0 {
      PeakRssBounds(polls, n - 1);
      if PeakRss(polls, n) != PeakRss(polls, n - 1) {
        assert polls[n - 1].rss == Some(PeakRss(polls, n));
      }
    }
  }

  lemma {:induction false} PeakCpuBounds(polls: seq<Poll>, n: nat)
    requires n <= |polls|
    ensures forall i :: 0 <= i < n && polls[i].cpu.Some? ==> polls[i].cpu.value <= PeakCpu(polls, n)
    ensures PeakCpu(polls, n) == 0.0 || exists i :: 0 <= i < n && polls[i].cpu == Some(PeakCpu(polls, n))
  {
    if n > 0 {
      PeakCpuBounds(polls, n - 1);
      if PeakCpu(polls, n) != PeakCpu(polls, n - 1) {
        assert polls[n - 1].cpu == Some(PeakCpu(polls, n));
      }
    }
  }

  /** The projection checks of one poll; they run only while a projection limit is set. */
  method CheckProjections(l: Limits, p: Poll) returns (decision: Decision)
    requires p.cpu.Some? && Projecting(l)
    ensures decision == ProjectionDecision(l, p)
  {
    decision := Continue;
    var projected := ProjectedCpu(p.log, l.nSplits, p.cpu.value);
    if projected.Some? && projected.value.total > l.projection.value {
      return FoldKill(projected.value.fold);
    }
    var preselect := ProjectedPreselectCpu(p.log, p.cpu.value);
    if preselect.Some? && preselect.value.total > l.cpuBudget * l.preselectFraction {
      return PreselectKill(preselect.value.fold);
    }
  }

  /** _watch: polls until the first decision; the peaks are those of the readings taken until then, and a memory
      kill comes before the CPU of its poll is read. */
  method Watch(l: Limits, polls: seq<Poll>) returns (decision: Decision, at: nat, peakRss: nat, peakCpu: real)
    requires exists k :: 0 <= k < |polls| && Decide(l, polls[k]) != Continue
    ensures at < |polls| && decision == Decide(l, polls[at]) && decision != Continue
    ensures forall i :: 0 <= i < at ==> Decide(l, polls[i]) == Continue
    ensures peakRss == PeakRss(polls, at + 1)
    ensures peakCpu == PeakCpu(polls, if decision == MemoryKill then at else at + 1)
  {
    at, peakRss, peakCpu := 0, 0, 0.0;
    while true
      invariant at < |polls|
      invariant exists k :: at <= k < |polls| && Decide(l, polls[k]) != Continue
      invariant forall i :: 0 <= i < at ==> Decide(l, polls[i]) == Continue
      invariant peakRss == PeakRss(polls, at) && peakCpu == PeakCpu(polls, at)
      decreases |polls| - at
    {
      var p := polls[at];
      if p.rss.Some? {
        if p.rss.value > peakRss { peakRss := p.rss.value; }
        if p.rss.value > l.rss {
          decision := MemoryKill;
          return;
        }
      }
      if p.cpu.Some? {
        peakCpu := Max(peakCpu, p.cpu.value);
        if p.cpu.value > l.cpuBudget {
          decision := CpuKill;
          return;
        }
        if Projecting(l) {
          decision := CheckProjections(l, p);
          if decision != Continue { return; }
        }
      }
      if p.remaining <= 0.0 {
        decision := TimeoutKill;
        return;
      }
      if p.exits {
        decision := Exited;
        return;
      }
      at := at + 1;
    }
  }

  /** A run that exits by itself never showed a reading above its limits, so what is recorded as its peaks is
      within them; a memory or CPU kill always leaves a recorded peak above the limit. */
  lemma PeaksTellTheKill(l: Limits, polls: seq<Poll>, at: nat)
    requires at < |polls| && l.cpuBudget >= 0.0
    requires forall i :: 0 <= i < at ==> Decide(l, polls[i]) == Continue
    ensures PeakRss(polls, at + 1) > l.rss <==> Decide(l, polls[at]) == MemoryKill
    ensures Decide(l, polls[at]) != MemoryKill ==> (PeakCpu(polls, at + 1) > l.cpuBudget <==> Decide(l, polls[at]) == CpuKill)
  {
    PeakRssBounds(polls, at);
    PeakCpuBounds(polls, at);
    assert PeakRss(polls, at) <= l.rss;
    assert PeakCpu(polls, at) <= l.cpuBudget;
    PeakRssBounds(polls, at + 1);
    PeakCpuBounds(polls, at + 1);
  }

  /** A projection kill during fold 1 anticipates the harness: at the end of that fold its own projection
      exceeds the limit too, up to the gap between the two marks. */
  lemma Fold1KillIsJustified(watchStart: real, harnessStart: real, cpuNow: real, cpuAfterFold1: real, nSplits: nat, limit: real)
    requires nSplits >= 1 && watchStart <= harnessStart && watchStart <= cpuNow <= cpuAfterFold1
    requires Above(Fold1Projection(watchStart, cpuNow, nSplits), limit)
    ensures HarnessProjection(harnessStart, cpuAfterFold1, nSplits) > limit - (nSplits - 1) as real * (harnessStart - watchStart)
  {
    Fold1WithinGap(watchStart, harnessStart, cpuNow, cpuAfterFold1, nSplits);
  }
}
