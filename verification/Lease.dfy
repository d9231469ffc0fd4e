/** One queue item of the daemon (bin/run_daemon.py) and the API thread that may cancel it
    (bin/api.py): every database action is one step, and the two threads' steps interleave freely. */
module Lease {

  /** The error column of the queue row. */
  datatype RowError = NoError | ConfigError | ConsecutiveFailures | AllUnsuccessful

  datatype Status = Pending | Running | Cancelled | Failed | Done

  /** Where the daemon is with the item. Popped, WriteRunning and WriteFinish are about to write a status
      without reading it again. Gap lies between the check at the top of the loop and the trigger: the pacer may
      sleep there. */
  datatype Pc =
    | Idle
    | Popped
    | Started
    | Top
    | Gap
    | InFlight
    | Breaker
    | PostCheck
    | WriteRunning
    | FinishCheck
    | WriteFinish

  /** nCycles, perLease and maxFailures are fixed; rowDone is the stored cycles_done and done the daemon's own
      count; triggered counts the cycles ever triggered for the item. armed counts API requests that have
      read a cancellable status and not yet written. succeeded counts the successful cycles of all leases and only
      serves the proofs. */
  datatype State = State(
    nCycles: nat, perLease: nat, maxFailures: nat,
    status: Status, rowDone: nat, error: RowError,
    pc: Pc, done: nat, leaseStart: nat, successes: nat, failedCycles: nat, consecutive: nat,
    running: bool, armed: nat, triggered: nat, succeeded: nat)

  function Queued(nCycles: nat, perLease: nat, maxFailures: nat): State {
    State(nCycles, perLease, maxFailures, Pending, 0, NoError, Idle, 0, 0, 0, 0, 0, true, 0, 0, 0)
  }

  function LeaseEnd(s: State): nat {
    if s.nCycles <= s.leaseStart + s.perLease then s.nCycles else s.leaseStart + s.perLease
  }

  datatype Event =
    | Pop
    | StartLease
    | LoadConfig(ok: bool)
    | LoopTop
    | Triggers
    | CycleEnds(success: bool)
    | BreakerWrites
    | ChecksAfterCycle
    | WritesRunning
    | ChecksAtFinish
    | WritesFinish
    | ApiReads
    | ApiWrites
    | Signal
    | Restart

  /** A signal may arrive between the daemon's look at its flag and the query, so Pop does not ask for it. */
  predicate Enabled(s: State, e: Event) {
    match e
    case Pop => s.pc.Idle? && s.status.Pending?
    case StartLease => s.pc.Popped?
    case LoadConfig(_) => s.pc.Started?
    case LoopTop => s.pc.Top?
    case Triggers => s.pc.Gap?
    case CycleEnds(_) => s.pc.InFlight?
    case BreakerWrites => s.pc.Breaker?
    case ChecksAfterCycle => s.pc.PostCheck?
    case WritesRunning => s.pc.WriteRunning?
    case ChecksAtFinish => s.pc.FinishCheck?
    case WritesFinish => s.pc.WriteFinish?
    case ApiReads => s.status.Pending? || s.status.Running?
    case ApiWrites => s.armed > 0
    case Signal => true
    case Restart => true
  }

  /** _final_status */
  function FinalStatus(successes: nat, failedCycles: nat): Status {
    if successes == 0 && failedCycles > 0 then Failed else Done
  }

  function Step(s: State, e: Event): State
    requires Enabled(s, e)
  {
    match e
    case Pop => s.(pc := Popped, done := s.rowDone, leaseStart := s.rowDone, successes := 0, failedCycles := 0, consecutive := 0)
    case StartLease => s.(pc := Started, status := Running)
    case LoadConfig(ok) => if ok then s.(pc := Top) else s.(pc := Idle, status := Failed, error := ConfigError)
    case LoopTop =>
      if s.done >= LeaseEnd(s) then s.(pc := FinishCheck)
      else if !s.running || s.status.Cancelled? then s.(pc := Idle, status := Cancelled, rowDone := s.done)
      else s.(pc := Gap)
    case Triggers => s.(pc := InFlight, triggered := s.triggered + 1)
    case CycleEnds(success) =>
      if success then s.(pc := PostCheck, done := s.done + 1, successes := s.successes + 1, succeeded := s.succeeded + 1, consecutive := 0)
      else s.(pc := if s.consecutive + 1 >= s.maxFailures then Breaker else Top,
              done := s.done + 1, failedCycles := s.failedCycles + 1, consecutive := s.consecutive + 1)
    case BreakerWrites => s.(pc := Idle, status := Failed, rowDone := s.done, error := ConsecutiveFailures)
    case ChecksAfterCycle =>
      if s.status.Cancelled? then s.(pc := Idle, rowDone := s.done) else s.(pc := WriteRunning)
    case WritesRunning => s.(pc := Top, status := Running, rowDone := s.done)
    case ChecksAtFinish => if s.status.Cancelled? then s.(pc := Idle) else s.(pc := WriteFinish)
    case WritesFinish =>
      s.(pc := Idle, rowDone := s.done,
         status := if s.done < s.nCycles then Pending else FinalStatus(s.successes, s.failedCycles),
         error := if s.done >= s.nCycles && FinalStatus(s.successes, s.failedCycles).Failed? then AllUnsuccessful else s.error)
    case ApiReads => s.(armed := s.armed + 1)
    case ApiWrites => s.(armed := s.armed - 1, status := Cancelled)
    case Signal => s.(running := false)
    case Restart => s.(pc := Idle, running := true, status := if s.status.Running? then Pending else s.status)
  }

  ghost predicate IsRun(s: State, events: seq<Event>)
    decreases |events|
  {
    events != [] ==> Enabled(s, events[0]) && IsRun(Step(s, events[0]), events[1..])
  }

  function After(s: State, events: seq<Event>): State
    requires IsRun(s, events)
    decreases |events|
  {
    if events == [] then s else After(Step(s, events[0]), events[1..])
  }

  // ---- cancellation

  /** The daemon is about to overwrite whatever the API has just written. */
  predicate Blind(pc: Pc) {
    pc.Popped? || pc.WriteRunning? || pc.WriteFinish?
  }

  /** The item is over, but for a cycle whose check has been passed. */
  predicate Stopped(s: State) {
    (s.status.Cancelled? && !Blind(s.pc)) || ((s.status.Failed? || s.status.Done?) && s.pc.Idle?)
  }

  /** Cycles that will be triggered without another look at the row. */
  function Cleared(s: State): nat {
    if s.pc.Gap? then 1 else 0
  }

  lemma StoppedStays(s: State, e: Event)
    requires Stopped(s) && Enabled(s, e)
    ensures Stopped(Step(s, e))
    ensures Step(s, e).triggered + Cleared(Step(s, e)) <= s.triggered + Cleared(s)
  {}

  lemma {:induction false} StoppedForGood(s: State, events: seq<Event>)
    requires Stopped(s) && IsRun(s, events)
    ensures Stopped(After(s, events)) && After(s, events).triggered <= s.triggered + Cleared(s)
    decreases |events|
  {
    if events != [] {
      StoppedStays(s, events[0]);
      StoppedForGood(Step(s, events[0]), events[1..]);
    }
  }

  /** A cancel written anywhere but right before a blind write is final, whatever the daemon does next (success,
      failure, breaker, lease end, signal or restart): the cycle in flight, if there is one, is the last ever
      triggered, and in the gap at most the one whose check has been passed. */
  lemma CancelIsFinal(s: State, events: seq<Event>)
    requires Enabled(s, ApiWrites) && !Blind(s.pc)
    requires IsRun(Step(s, ApiWrites), events)
    ensures After(Step(s, ApiWrites), events).triggered <= s.triggered + if s.pc.Gap? then 1 else 0
  {
    StoppedForGood(Step(s, ApiWrites), events);
  }

  // ---- progress without crashes

  predicate CrashFree(events: seq<Event>) {
    forall i :: 0 <= i < |events| ==> !events[i].Restart?
  }

  /** The row lags behind by the failures since the last success, and by a success not stored yet. */
  predicate Stored(s: State) {
    && s.rowDone <= s.done
    && (s.consecutive == 0 && !s.pc.PostCheck? && !s.pc.WriteRunning? ==> s.rowDone == s.done)
    && (s.maxFailures <= 1 && !s.pc.Breaker? ==> s.consecutive == 0)
  }

  /** Every cycle is counted once, and stored before the item can be leased again. */
  predicate Counted(s: State) {
    && s.triggered <= s.nCycles && s.leaseStart <= s.nCycles
    && (!s.pc.Idle? ==> s.error.NoError?)
    && match s.pc
       case Idle => !s.status.Running? && AtRest(s)
       case Popped => s.rowDone == s.done == s.leaseStart == s.triggered && s.consecutive == 0
       case Started => s.rowDone == s.done == s.leaseStart == s.triggered && s.consecutive == 0
       case Gap => Stored(s) && s.triggered == s.done && s.leaseStart <= s.done < LeaseEnd(s)
       case InFlight => Stored(s) && s.triggered == s.done + 1 && s.leaseStart <= s.done < LeaseEnd(s)
       case _ =>
         && Stored(s) && s.triggered == s.done && s.leaseStart <= s.done <= LeaseEnd(s)
         && (s.pc.FinishCheck? || s.pc.WriteFinish? ==> s.done == LeaseEnd(s))
         && (s.pc.Breaker? ==> 1 <= s.consecutive && s.maxFailures <= s.consecutive)
  }

  /** What the row of an item that no lease is working on says. */
  predicate AtRest(s: State) {
    && s.rowDone <= s.triggered
    && (!s.status.Cancelled? || s.maxFailures <= 1 ==> s.rowDone == s.triggered)
    && (s.status.Pending? || s.status.Done? ==> s.error.NoError?)
    && (s.status.Done? ==> s.triggered == s.nCycles)
    && (s.status.Failed? ==>
          match s.error
          case NoError => false
          case ConfigError => s.done == s.leaseStart == s.rowDone
          case ConsecutiveFailures => 1 <= s.consecutive && s.maxFailures <= s.consecutive
          case AllUnsuccessful => s.triggered == s.nCycles && s.successes == 0 && s.failedCycles > 0)
  }

  /** What the API, a signal and the daemon between leases do. */
  predicate Outside(e: Event) {
    e.ApiReads? || e.ApiWrites? || e.Signal? || e.Pop? || e.StartLease? || e.LoadConfig?
  }

  lemma CountedOutside(s: State, e: Event)
    requires Counted(s) && Enabled(s, e) && Outside(e)
    ensures Counted(Step(s, e))
  {}

  lemma CountedInLoop(s: State, e: Event)
    requires Counted(s) && Enabled(s, e) && !Outside(e) && !e.Restart?
    ensures Counted(Step(s, e))
  {}

  lemma CountedStep(s: State, e: Event)
    requires Counted(s) && Enabled(s, e) && !e.Restart?
    ensures Counted(Step(s, e))
  {
    if Outside(e) { CountedOutside(s, e); } else { CountedInLoop(s, e); }
  }

  lemma {:induction false} CountedRun(s: State, events: seq<Event>)
    requires Counted(s) && IsRun(s, events) && CrashFree(events)
    ensures Counted(After(s, events))
    decreases |events|
  {
    if events != [] {
      assert !events[0].Restart?;
      CountedStep(s, events[0]);
      CountedRun(Step(s, events[0]), events[1..]);
    }
  }

  lemma {:induction false} SettingsFixed(s: State, events: seq<Event>)
    requires IsRun(s, events)
    ensures var t := After(s, events); t.nCycles == s.nCycles && t.perLease == s.perLease && t.maxFailures == s.maxFailures
    decreases |events|
  {
    if events != [] { SettingsFixed(Step(s, events[0]), events[1..]); }
  }

  /** Over any crash-free run from the queue, with the API cancelling whenever it likes: never more than nCycles
      cycles; the daemon never leaves an item running; the row of an item at rest that is not cancelled stores every
      cycle; done, or failed with every cycle unsuccessful, means exactly nCycles were triggered and are stored; any
      other failure is the configuration, with nothing triggered in that lease, or the breaker. */
  lemma LeaseProgress(nCycles: nat, perLease: nat, maxFailures: nat, events: seq<Event>)
    requires IsRun(Queued(nCycles, perLease, maxFailures), events) && CrashFree(events)
    ensures var s := After(Queued(nCycles, perLease, maxFailures), events);
            && s.triggered <= nCycles
            && (s.pc.Idle? ==>
                  && !s.status.Running?
                  && (!s.status.Cancelled? ==> s.rowDone == s.triggered)
                  && (s.status.Done? ==> s.rowDone == s.triggered == nCycles && s.error == NoError)
                  && (s.status.Failed? ==> s.error != NoError)
                  && (s.status.Failed? && s.error == AllUnsuccessful ==> s.rowDone == s.triggered == nCycles && s.successes == 0)
                  && (s.status.Failed? && s.error == ConfigError ==> s.rowDone == s.leaseStart)
                  && (s.status.Failed? && s.error == ConsecutiveFailures ==> maxFailures <= s.consecutive && 1 <= s.consecutive))
  {
    CountedRun(Queued(nCycles, perLease, maxFailures), events);
    SettingsFixed(Queued(nCycles, perLease, maxFailures), events);
  }

  /** An item that the daemon itself cancels, at the top of the loop or after a cycle, stores every cycle. */
  lemma DaemonCancelStoresAll(s: State, e: Event)
    requires Counted(s) && Enabled(s, e) && (e == LoopTop || e == ChecksAfterCycle) && Step(s, e).pc.Idle?
    ensures Step(s, e).status.Cancelled? && Step(s, e).rowDone == Step(s, e).triggered == s.triggered
  {}

  /** A requeued item has advanced by exactly the lease size, so what is left of its budget shrinks. */
  lemma RequeueAdvances(s: State)
    requires Counted(s) && s.pc.WriteFinish?
    ensures var t := Step(s, WritesFinish);
            t.status.Pending? ==> t.rowDone == s.leaseStart + s.perLease && t.nCycles - t.rowDone == s.nCycles - s.leaseStart - s.perLease
    ensures Step(s, WritesFinish).status.Pending? <==> s.leaseStart + s.perLease < s.nCycles
  {}

  // ---- runs put together

  lemma Then(s: State, e: Event, rest: seq<Event>)
    requires Enabled(s, e) && IsRun(Step(s, e), rest)
    ensures IsRun(s, [e] + rest) && After(s, [e] + rest) == After(Step(s, e), rest)
  {
    assert ([e] + rest)[1..] == rest;
  }

  lemma {:induction false} Append(s: State, a: seq<Event>, b: seq<Event>)
    requires IsRun(s, a) && IsRun(After(s, a), b)
    ensures IsRun(s, a + b) && After(s, a + b) == After(After(s, a), b)
    decreases |a|
  {
    if a == [] {
      assert a + b == b;
    } else {
      Append(Step(s, a[0]), a[1..], b);
      assert (a + b)[1..] == a[1..] + b;
    }
  }

  lemma OneStep(s: State, e: Event)
    requires Enabled(s, e)
    ensures IsRun(s, [e]) && After(s, [e]) == Step(s, e)
  {
    assert [e][1..] == [];
  }

  lemma TwoSteps(s: State, e: Event, f: Event)
    requires Enabled(s, e) && Enabled(Step(s, e), f)
    ensures IsRun(s, [e, f]) && After(s, [e, f]) == Step(Step(s, e), f)
  {
    OneStep(Step(s, e), f);
    Then(s, e, [f]);
    assert [e] + [f] == [e, f];
  }

  /** A crash-free run leads from s to t. */
  ghost predicate Leads(s: State, t: State) {
    exists events :: IsRun(s, events) && CrashFree(events) && After(s, events) == t
  }

  lemma LeadsOn(s: State, t: State, u: State)
    requires Leads(s, t) && Leads(t, u)
    ensures Leads(s, u)
  {
    var a :| IsRun(s, a) && CrashFree(a) && After(s, a) == t;
    var b :| IsRun(t, b) && CrashFree(b) && After(t, b) == u;
    Append(s, a, b);
    assert IsRun(s, a + b) && CrashFree(a + b) && After(s, a + b) == u;
  }

  lemma LeadsByTwo(s: State, e: Event, f: Event)
    requires Enabled(s, e) && Enabled(Step(s, e), f) && !e.Restart? && !f.Restart?
    ensures Leads(s, Step(Step(s, e), f))
  {
    TwoSteps(s, e, f);
    assert CrashFree([e, f]);
  }

  lemma LeadsByOne(s: State, e: Event)
    requires Enabled(s, e) && !e.Restart?
    ensures Leads(s, Step(s, e))
  {
    OneStep(s, e);
    assert CrashFree([e]);
  }

  lemma LeadsNowhere(s: State)
    ensures Leads(s, s)
  {
    assert IsRun(s, []) && CrashFree([]) && After(s, []) == s;
  }

  /** From the top of the loop to the end of a cycle. */
  function Cycle(s: State, success: bool): State
    requires s.pc.Top? && s.running && !s.status.Cancelled? && s.done < LeaseEnd(s)
  {
    Step(Step(Step(s, LoopTop), Triggers), CycleEnds(success))
  }

  lemma LeadsByCycle(s: State, success: bool)
    requires s.pc.Top? && s.running && !s.status.Cancelled? && s.done < LeaseEnd(s)
    ensures Leads(s, Cycle(s, success))
  {
    LeadsByOne(s, LoopTop);
    LeadsByTwo(Step(s, LoopTop), Triggers, CycleEnds(success));
    LeadsOn(s, Step(s, LoopTop), Cycle(s, success));
  }

  /** The state at the top of the loop after k more cycles that all end alike. */
  function AfterCycles(s: State, success: bool, k: nat): State {
    if k == 0 then s
    else if success then
      s.(status := Running, rowDone := s.done + k, done := s.done + k, triggered := s.triggered + k,
         successes := s.successes + k, succeeded := s.succeeded + k, consecutive := 0)
    else
      s.(done := s.done + k, triggered := s.triggered + k, failedCycles := s.failedCycles + k,
         consecutive := s.consecutive + k)
  }

  lemma {:induction false} CyclesInARow(s: State, success: bool, k: nat)
    requires s.pc.Top? && s.running && s.status.Running? && s.done + k <= LeaseEnd(s)
    requires success || k == 0 || s.consecutive + k < s.maxFailures
    ensures Leads(s, AfterCycles(s, success, k))
    decreases k
  {
    if k == 0 {
      LeadsNowhere(s);
    } else {
      LeadsByCycle(s, success);
      var ended := Cycle(s, success);
      if success {
        LeadsByTwo(ended, ChecksAfterCycle, WritesRunning);
        LeadsOn(s, ended, AfterCycles(s, success, 1));
      }
      CyclesInARow(AfterCycles(s, success, 1), success, k - 1);
      LeadsOn(s, AfterCycles(s, success, 1), AfterCycles(s, success, k));
    }
  }

  /** The top of the loop of a lease of s. */
  function LeaseTop(s: State): State {
    s.(pc := Top, status := Running, done := s.rowDone, leaseStart := s.rowDone, successes := 0, failedCycles := 0, consecutive := 0)
  }

  predicate Waiting(s: State) {
    s.pc.Idle? && s.status.Pending? && s.running && s.perLease > 0 && s.rowDone < s.nCycles
  }

  lemma ReachesTop(s: State)
    requires Waiting(s)
    ensures Leads(s, LeaseTop(s))
  {
    LeadsByTwo(s, Pop, StartLease);
    var started := Step(Step(s, Pop), StartLease);
    LeadsByOne(started, LoadConfig(true));
    LeadsOn(s, started, LeaseTop(s));
  }

  function LeaseSize(s: State): nat
    requires s.rowDone <= s.nCycles
  {
    if s.nCycles <= s.rowDone + s.perLease then s.nCycles - s.rowDone else s.perLease
  }

  /** A whole lease whose cycles all end alike, from the queue to its last write. */
  lemma WholeLease(s: State, success: bool) returns (t: State)
    requires Waiting(s) && (success || LeaseSize(s) < s.maxFailures)
    ensures Leads(s, t)
    ensures t.pc.Idle? && t.running && t.rowDone == s.rowDone + LeaseSize(s)
    ensures t.nCycles == s.nCycles && t.perLease == s.perLease && t.maxFailures == s.maxFailures
    ensures t.succeeded == s.succeeded + if success then LeaseSize(s) else 0
    ensures t.status == if t.rowDone < s.nCycles then Pending else if success then Done else Failed
    ensures t.status.Failed? ==> t.error == AllUnsuccessful
  {
    ReachesTop(s);
    var top := LeaseTop(s);
    CyclesInARow(top, success, LeaseSize(s));
    var end := AfterCycles(top, success, LeaseSize(s));
    LeadsOn(s, top, end);
    LeadsByTwo(end, LoopTop, ChecksAtFinish);
    var checked := Step(Step(end, LoopTop), ChecksAtFinish);
    LeadsOn(s, end, checked);
    LeadsByOne(checked, WritesFinish);
    t := Step(checked, WritesFinish);
    LeadsOn(s, checked, t);
  }

  // ---- exactly when a cancel is lost

  /** A lease that has some of its cycles left, or none. */
  predicate AtTop(s: State) {
    s.pc.Top? && s.running && s.status.Running? && s.perLease > 0 && s.leaseStart <= s.done <= LeaseEnd(s)
  }

  /** From the end of a lease to the top of the next one. */
  lemma NextLease(s: State) returns (t: State)
    requires AtTop(s) && s.done == LeaseEnd(s) < s.nCycles
    ensures Leads(s, t) && AtTop(t) && t.done == s.done < LeaseEnd(t) && t.nCycles == s.nCycles && t.triggered == s.triggered
  {
    LeadsByTwo(s, LoopTop, ChecksAtFinish);
    var checked := Step(Step(s, LoopTop), ChecksAtFinish);
    LeadsByOne(checked, WritesFinish);
    var queued := Step(checked, WritesFinish);
    LeadsOn(s, checked, queued);
    ReachesTop(queued);
    t := LeaseTop(queued);
    LeadsOn(s, queued, t);
  }

  /** Any number of cycles up to the budget, over as many leases as that takes. */
  lemma {:induction false} TriggersFromTop(s: State, k: nat) returns (t: State)
    requires AtTop(s) && s.done + k <= s.nCycles
    ensures Leads(s, t) && t.triggered == s.triggered + k
    decreases k, LeaseEnd(s) == s.done
  {
    var m := LeaseEnd(s) - s.done;
    if k <= m {
      CyclesInARow(s, true, k);
      t := AfterCycles(s, true, k);
    } else {
      CyclesInARow(s, true, m);
      var end := AfterCycles(s, true, m);
      var next := NextLease(end);
      LeadsOn(s, end, next);
      t := TriggersFromTop(next, k - m);
      LeadsOn(s, next, t);
    }
  }

  /** A daemon about to write over a cancel gets back to the top of its loop. */
  lemma ToTopFromBlind(s: State) returns (t: State)
    requires Counted(s) && Blind(s.pc) && s.running && s.perLease > 0 && s.done < s.nCycles
    ensures Leads(s, t) && AtTop(t) && t.done == s.done && t.nCycles == s.nCycles && t.triggered == s.triggered
  {
    match s.pc {
      case Popped =>
        LeadsByTwo(s, StartLease, LoadConfig(true));
        t := Step(Step(s, StartLease), LoadConfig(true));
      case WriteRunning =>
        LeadsByOne(s, WritesRunning);
        t := Step(s, WritesRunning);
      case WriteFinish =>
        LeadsByOne(s, WritesFinish);
        var queued := Step(s, WritesFinish);
        ReachesTop(queued);
        t := LeaseTop(queued);
        LeadsOn(s, queued, t);
    }
  }

  /** The daemon may trigger exactly k further cycles. */
  ghost predicate CanTrigger(s: State, k: nat) {
    exists t :: Leads(s, t) && t.triggered == s.triggered + k
  }

  /** A daemon told to stop, or with leases of no cycles, triggers nothing more once it is out of the gap. */
  predicate Halted(s: State) {
    (!s.running || s.perLease == 0) && !s.pc.Gap?
  }

  lemma HaltedStays(s: State, e: Event)
    requires Counted(s) && Halted(s) && Enabled(s, e) && !e.Restart?
    ensures Halted(Step(s, e)) && Step(s, e).triggered == s.triggered
  {}

  lemma {:induction false} TriggersNothing(s: State, events: seq<Event>)
    requires Counted(s) && IsRun(s, events) && CrashFree(events) && Halted(s)
    ensures After(s, events).triggered == s.triggered
    decreases |events|
  {
    if events != [] {
      assert !events[0].Restart?;
      CountedStep(s, events[0]);
      HaltedStays(s, events[0]);
      TriggersNothing(Step(s, events[0]), events[1..]);
    }
  }

  /** A signal is heeded at the next check: over any run without a restart, at most the cycle whose check has been
      passed is triggered after it. */
  lemma SignalIsHeeded(s: State, events: seq<Event>)
    requires Counted(s) && IsRun(Step(s, Signal), events) && CrashFree(events)
    ensures After(Step(s, Signal), events).triggered <= s.triggered + if s.pc.Gap? then 1 else 0
  {
    CountedStep(s, Signal);
    ToldToStop(Step(s, Signal), events);
  }

  lemma {:induction false} ToldToStop(s: State, events: seq<Event>)
    requires !s.running && IsRun(s, events) && CrashFree(events)
    ensures After(s, events).triggered <= s.triggered + Cleared(s)
    decreases |events|
  {
    if events != [] {
      assert !events[0].Restart?;
      ToldToStop(Step(s, events[0]), events[1..]);
    }
  }

  /** A signal that arrives between the daemon's look at its flag and the query does not keep an item in the queue: it
      is leased, and the check at the top of the loop cancels it with nothing triggered. */
  lemma ItemPoppedAfterSignalIsCancelled(s: State) returns (t: State)
    requires s.pc.Idle? && s.status.Pending? && !s.running && s.perLease > 0 && s.rowDone < s.nCycles
    ensures Leads(s, t) && t.pc.Idle? && t.status.Cancelled? && t.rowDone == s.rowDone && t.triggered == s.triggered
  {
    LeadsByTwo(s, Pop, StartLease);
    var started := Step(Step(s, Pop), StartLease);
    LeadsByTwo(started, LoadConfig(true), LoopTop);
    t := Step(Step(started, LoadConfig(true)), LoopTop);
    LeadsOn(s, started, t);
  }

  /** After a cancel k further cycles may be triggered, for k > 0, exactly in two cases: it lands in the gap and
      k is 1, whether or not the daemon has been told to stop; or it lands right before a blind write, the
      daemon goes on, and k is within the budget that is left. */
  lemma CancelIsLostExactly(s: State, k: nat)
    requires Counted(s) && Enabled(s, ApiWrites) && k > 0
    ensures CanTrigger(Step(s, ApiWrites), k)
            <==> (s.pc.Gap? && k == 1) || (Blind(s.pc) && s.running && s.perLease > 0 && s.done + k <= s.nCycles)
  {
    var t := Step(s, ApiWrites);
    CountedStep(s, ApiWrites);
    if s.pc.Gap? && k == 1 {
      LeadsByOne(t, Triggers);
    } else if Blind(s.pc) && s.running && s.perLease > 0 && s.done + k <= s.nCycles {
      var top := ToTopFromBlind(t);
      var u := TriggersFromTop(top, k);
      LeadsOn(t, top, u);
    }
    if u :| Leads(t, u) && u.triggered == t.triggered + k {
      var events :| IsRun(t, events) && CrashFree(events) && After(t, events) == u;
      if !Blind(s.pc) {
        CancelIsFinal(s, events);
      } else if s.running && s.perLease > 0 {
        CountedRun(t, events);
        SettingsFixed(t, events);
      } else {
        TriggersNothing(t, events);
      }
    }
  }

  // ---- when stored progress falls behind

  predicate LagInReach(nCycles: nat, perLease: nat, maxFailures: nat) {
    nCycles > 0 && perLease > 0 && maxFailures > 1
  }

  /** A lease that ends with a failed cycle and is cancelled right then: the check at its end writes nothing. */
  lemma LagsBehind(s: State) returns (t: State)
    requires Waiting(s) && s.maxFailures > 1 && s.rowDone == s.triggered
    ensures Leads(s, t) && t.pc.Idle? && t.rowDone < t.triggered
  {
    ReachesTop(s);
    var top := LeaseTop(s);
    CyclesInARow(top, true, LeaseSize(s) - 1);
    var almost := AfterCycles(top, true, LeaseSize(s) - 1);
    LeadsOn(s, top, almost);
    LeadsByCycle(almost, false);
    var full := Cycle(almost, false);
    LeadsOn(s, almost, full);
    LeadsByTwo(full, LoopTop, ApiReads);
    var asked := Step(Step(full, LoopTop), ApiReads);
    LeadsOn(s, full, asked);
    LeadsByTwo(asked, ApiWrites, ChecksAtFinish);
    t := Step(Step(asked, ApiWrites), ChecksAtFinish);
    LeadsOn(s, asked, t);
  }

  /** A crash-free run can leave an item at rest with fewer cycles stored than were triggered exactly when a lease
      can end with a failed cycle: failures are only stored with the next success, the breaker or the lease's last
      write, and a cancel seen at the end of the lease keeps that one from being made. */
  lemma ProgressFallsBehindExactly(nCycles: nat, perLease: nat, maxFailures: nat)
    ensures (exists t :: Leads(Queued(nCycles, perLease, maxFailures), t) && t.pc.Idle? && t.rowDone != t.triggered)
            <==> LagInReach(nCycles, perLease, maxFailures)
  {
    var s := Queued(nCycles, perLease, maxFailures);
    if LagInReach(nCycles, perLease, maxFailures) {
      var t := LagsBehind(s);
    }
    if t :| Leads(s, t) && t.pc.Idle? && t.rowDone != t.triggered {
      var events :| IsRun(s, events) && CrashFree(events) && After(s, events) == t;
      CountedRun(s, events);
      SettingsFixed(s, events);
      if nCycles == 0 || perLease == 0 { NothingTriggered(s, events); }
    }
  }

  /** Without a budget, or with leases of no cycles, nothing is ever triggered. */
  lemma {:induction false} NothingTriggered(s: State, events: seq<Event>)
    requires Counted(s) && IsRun(s, events) && CrashFree(events)
    requires (s.nCycles == 0 || s.perLease == 0) && s.triggered == 0
    ensures After(s, events).triggered == 0
    decreases |events|
  {
    if events != [] {
      assert !events[0].Restart?;
      CountedStep(s, events[0]);
      NothingTriggered(Step(s, events[0]), events[1..]);
    }
  }

  // ---- what the counters count

  /** How many cycles end this way. */
  function Ends(events: seq<Event>, success: bool): nat {
    if events == [] then 0 else (if events[0] == CycleEnds(success) then 1 else 0) + Ends(events[1..], success)
  }

  lemma {:induction false} EndsNext(events: seq<Event>, e: Event, success: bool)
    ensures Ends(events + [e], success) == Ends(events, success) + if e == CycleEnds(success) then 1 else 0
  {
    if events == [] {
      assert [] + [e] == [e] && [e][1..] == [];
    } else {
      assert (events + [e])[1..] == events[1..] + [e];
      EndsNext(events[1..], e, success);
    }
  }

  lemma RunInit(s: State, events: seq<Event>)
    requires IsRun(s, events) && events != []
    ensures var n := |events| - 1;
            IsRun(s, events[..n]) && Enabled(After(s, events[..n]), events[n]) && After(s, events) == Step(After(s, events[..n]), events[n])
    decreases |events|
  {
    var n := |events| - 1;
    if n == 0 {
      assert events[..0] == [] && events[1..] == [];
    } else {
      RunInit(Step(s, events[0]), events[1..]);
      assert events[1..][..n - 1] == events[..n][1..];
    }
  }

  /** events[i..] is what has happened in the last lease. */
  predicate LeaseFrom(events: seq<Event>, i: nat) {
    i <= |events| && (i == 0 || events[i - 1].Pop?) && forall j :: i <= j < |events| ==> !events[j].Pop?
  }

  /** events[i..] is what has happened in the last lease since its last success. */
  predicate StreakFrom(events: seq<Event>, i: nat) {
    && i <= |events| && (i == 0 || events[i - 1].Pop? || events[i - 1] == CycleEnds(true))
    && forall j :: i <= j < |events| ==> !events[j].Pop? && events[j] != CycleEnds(true)
  }

  lemma ThisFrom(events: seq<Event>, e: Event, i: nat, success: bool)
    requires i <= |events|
    ensures Ends((events + [e])[i..], success) == Ends(events[i..], success) + if e == CycleEnds(success) then 1 else 0
  {
    assert (events + [e])[i..] == events[i..] + [e];
    EndsNext(events[i..], e, success);
  }

  /** What the daemon's counters count. */
  predicate Counts(s: State, events: seq<Event>, lease: nat, streak: nat) {
    && LeaseFrom(events, lease) && StreakFrom(events, streak)
    && s.successes == Ends(events[lease..], true) && s.failedCycles == Ends(events[lease..], false)
    && s.consecutive == Ends(events[streak..], false)
  }

  lemma CountsNext(s: State, events: seq<Event>, lease: nat, streak: nat, e: Event) returns (lease': nat, streak': nat)
    requires Counts(s, events, lease, streak) && Enabled(s, e)
    ensures Counts(Step(s, e), events + [e], lease', streak')
  {
    lease', streak' := lease, streak;
    var all, n := events + [e], |events| + 1;
    assert all[n..] == [];
    if e.Pop? {
      lease', streak' := n, n;
    } else {
      ThisFrom(events, e, lease, true);
      ThisFrom(events, e, lease, false);
      ThisFrom(events, e, streak, false);
      FromNext(events, e, lease, streak);
      if e == CycleEnds(true) { streak' := n; }
    }
  }

  lemma FromNext(events: seq<Event>, e: Event, lease: nat, streak: nat)
    requires LeaseFrom(events, lease) && StreakFrom(events, streak) && !e.Pop?
    ensures LeaseFrom(events + [e], lease) && (e != CycleEnds(true) ==> StreakFrom(events + [e], streak))
  {}

  /** Over any run, crashes included: the daemon's counters count the successes and failures of the last lease, and
      the failures since its last success. */
  lemma {:induction false} CountersTellTheLease(s: State, events: seq<Event>) returns (lease: nat, streak: nat)
    requires s.successes == s.failedCycles == s.consecutive == 0 && IsRun(s, events)
    ensures Counts(After(s, events), events, lease, streak)
    decreases |events|
  {
    if events == [] {
      return 0, 0;
    }
    var n := |events| - 1;
    RunInit(s, events);
    lease, streak := CountersTellTheLease(s, events[..n]);
    lease, streak := CountsNext(After(s, events[..n]), events[..n], lease, streak, events[n]);
    assert events == events[..n] + [events[n]];
  }

  /** A failed cycle stops the lease exactly when it is the last of enough failures in a row, in the lease: for any
      run, crashes included, that ends with one. */
  lemma BreakerFiresAtOnceExactly(nCycles: nat, perLease: nat, maxFailures: nat, events: seq<Event>) returns (streak: nat)
    requires IsRun(Queued(nCycles, perLease, maxFailures), events) && events != [] && events[|events| - 1] == CycleEnds(false)
    ensures StreakFrom(events, streak)
    ensures After(Queued(nCycles, perLease, maxFailures), events).pc.Breaker? <==> Ends(events[streak..], false) >= maxFailures
  {
    var s := Queued(nCycles, perLease, maxFailures);
    var lease;
    lease, streak := CountersTellTheLease(s, events);
    RunInit(s, events);
    SettingsFixed(s, events[..|events| - 1]);
  }

  /** After a crash the daemon starts again with the item in the queue, at the progress the row has stored. */
  lemma RestartResumes(s: State)
    requires s.status.Running? && s.perLease > 0 && s.rowDone < s.nCycles
    ensures var r := Step(s, Restart);
            && r.status.Pending? && r.running && r.rowDone == s.rowDone && r.triggered == s.triggered
            && Leads(r, LeaseTop(r)) && LeaseTop(r).done == s.rowDone
  {
    ReachesTop(Step(s, Restart));
  }

  // ---- when the breaker can fire

  predicate WithinLease(s: State) {
    s.rowDone <= s.nCycles &&
    match s.pc
    case Idle => true
    case Popped => s.consecutive == 0 && s.done == s.leaseStart <= s.nCycles
    case Started => s.consecutive == 0 && s.done == s.leaseStart <= s.nCycles
    case Breaker => 1 <= s.consecutive <= s.done - s.leaseStart && s.maxFailures <= s.consecutive && s.done <= LeaseEnd(s)
    case Gap => s.consecutive <= s.done - s.leaseStart && s.done < LeaseEnd(s)
    case InFlight => s.consecutive <= s.done - s.leaseStart && s.done < LeaseEnd(s)
    case _ => s.consecutive <= s.done - s.leaseStart && s.done <= LeaseEnd(s)
  }

  lemma WithinLeaseStep(s: State, e: Event)
    requires WithinLease(s) && Enabled(s, e)
    ensures WithinLease(Step(s, e))
  {}

  lemma {:induction false} WithinLeaseRun(s: State, events: seq<Event>)
    requires WithinLease(s) && IsRun(s, events)
    ensures WithinLease(After(s, events))
    decreases |events|
  {
    if events != [] {
      WithinLeaseStep(s, events[0]);
      WithinLeaseRun(Step(s, events[0]), events[1..]);
    }
  }

  predicate BreakerInReach(nCycles: nat, perLease: nat, maxFailures: nat) {
    0 < nCycles && 0 < perLease && maxFailures <= nCycles && maxFailures <= perLease
  }

  /** Failures are counted afresh in each lease. So the breaker fires in some run if and only if a single lease
      can hold that many failures; crashes and restarts do not change that. */
  lemma BreakerFiresExactly(nCycles: nat, perLease: nat, maxFailures: nat)
    ensures (exists events :: IsRun(Queued(nCycles, perLease, maxFailures), events)
                              && After(Queued(nCycles, perLease, maxFailures), events).pc.Breaker?)
            <==> BreakerInReach(nCycles, perLease, maxFailures)
  {
    var s := Queued(nCycles, perLease, maxFailures);
    if BreakerInReach(nCycles, perLease, maxFailures) {
      ReachesTop(s);
      var top := LeaseTop(s);
      var k := if maxFailures == 0 then 0 else maxFailures - 1;
      CyclesInARow(top, false, k);
      var full := AfterCycles(top, false, k);
      LeadsOn(s, top, full);
      LeadsByCycle(full, false);
      LeadsOn(s, full, Cycle(full, false));
    }
    if events :| IsRun(s, events) && After(s, events).pc.Breaker? {
      WithinLeaseRun(s, events);
      SettingsFixed(s, events);
    }
  }

  // ---- when the final status is wrong

  ghost predicate MultipleOf(r: nat, perLease: nat) {
    exists q: nat :: r == q * perLease
  }

  lemma NextMultiple(r: nat, perLease: nat)
    requires MultipleOf(r, perLease)
    ensures MultipleOf(r + perLease, perLease)
  {
    var q: nat :| r == q * perLease;
    assert r + perLease == (q + 1) * perLease;
  }

  /** What a lease's counters say, and where leases start. */
  ghost predicate Tallied(s: State) {
    && (s.pc.Idle? && s.status.Pending? ==> MultipleOf(s.rowDone, s.perLease) && s.succeeded <= s.rowDone)
    && (!s.pc.Idle? ==>
          && MultipleOf(s.leaseStart, s.perLease)
          && s.succeeded <= s.leaseStart + s.successes
          && s.successes + s.failedCycles == s.done - s.leaseStart
          && (s.successes == 0 ==> s.consecutive == s.failedCycles)
          && (s.consecutive == 0 || s.consecutive < s.maxFailures || s.pc.Breaker?))
    && (Wrong(s) ==> WrongInReach(s.nCycles, s.perLease, s.maxFailures))
  }

  /** The item ended as failed with every cycle unsuccessful, although a cycle of it succeeded. */
  predicate Wrong(s: State) {
    s.pc.Idle? && s.status.Failed? && s.error == AllUnsuccessful && s.succeeded > 0
  }

  /** More than one lease, and a last lease short enough for its failures not to reach the breaker. */
  predicate WrongInReach(nCycles: nat, perLease: nat, maxFailures: nat) {
    nCycles > perLease > 0 && (nCycles - 1) % perLease + 1 < maxFailures
  }

  lemma OneQuotient(n: nat, q: nat, d: nat, p: nat, c: nat)
    requires d < n && c < n && q * n + d == p * n + c
    ensures q == p && d == c
  {
    if q < p {
      assert p * n == q * n + (p - q) * n;
      AtLeastOne(p - q, n);
    } else if p < q {
      assert q * n == p * n + (q - p) * n;
      AtLeastOne(q - p, n);
    }
  }

  lemma AtLeastOne(k: nat, n: nat)
    requires k > 0
    ensures k * n >= n
  {
    assert k * n == (k - 1) * n + n;
  }

  lemma Remainder(q: nat, n: nat, d: nat)
    requires d < n
    ensures (q * n + d) % n == d
  {
    var a := q * n + d;
    OneQuotient(n, q, d, a / n, a % n);
  }

  /** The size of the last lease. */
  lemma LastLease(nCycles: nat, perLease: nat, from: nat)
    requires MultipleOf(from, perLease) && from < nCycles <= from + perLease
    ensures (nCycles - 1) % perLease + 1 == nCycles - from
  {
    var q: nat :| from == q * perLease;
    Remainder(q, perLease, nCycles - 1 - from);
  }

  /** A lease that does not start at the beginning comes after a whole one. */
  lemma AfterAWholeLease(leaseStart: nat, perLease: nat)
    requires MultipleOf(leaseStart, perLease) && leaseStart > 0
    ensures leaseStart >= perLease
  {
    var q: nat :| leaseStart == q * perLease;
    if q > 0 { AtLeastOne(q, perLease); }
  }

  lemma TalliedFinish(s: State)
    requires Counted(s) && Tallied(s) && s.pc.WriteFinish?
    ensures Tallied(Step(s, WritesFinish))
  {
    NextMultiple(s.leaseStart, s.perLease);
    if Wrong(Step(s, WritesFinish)) {
      LastLease(s.nCycles, s.perLease, s.leaseStart);
      AfterAWholeLease(s.leaseStart, s.perLease);
    }
  }

  lemma TalliedStep(s: State, e: Event)
    requires Counted(s) && Tallied(s) && Enabled(s, e) && !e.Restart?
    ensures Tallied(Step(s, e))
  {
    if e.WritesFinish? { TalliedFinish(s); }
  }

  lemma {:induction false} TalliedRun(s: State, events: seq<Event>)
    requires Counted(s) && Tallied(s) && IsRun(s, events) && CrashFree(events)
    ensures Tallied(After(s, events))
    decreases |events|
  {
    if events != [] {
      assert !events[0].Restart?;
      CountedStep(s, events[0]);
      TalliedStep(s, events[0]);
      TalliedRun(Step(s, events[0]), events[1..]);
    }
  }

  /** Lease after lease of successes, until the last one is left. */
  lemma {:induction false} UpToLastLease(s: State) returns (t: State)
    requires Waiting(s) && MultipleOf(s.rowDone, s.perLease) && s.succeeded == s.rowDone
    ensures Leads(s, t) && Waiting(t)
    ensures t.nCycles == s.nCycles && t.perLease == s.perLease && t.maxFailures == s.maxFailures
    ensures MultipleOf(t.rowDone, t.perLease) && t.succeeded == t.rowDone >= s.rowDone
    ensures t.nCycles <= t.rowDone + t.perLease
    decreases s.nCycles - s.rowDone
  {
    if s.nCycles <= s.rowDone + s.perLease {
      LeadsNowhere(s);
      t := s;
    } else {
      var next := WholeLease(s, true);
      NextMultiple(s.rowDone, s.perLease);
      t := UpToLastLease(next);
      LeadsOn(s, next, t);
    }
  }

  /** Successes are counted afresh in each lease too. So an item with a successful cycle can end as failed with
      all cycles unsuccessful if and only if it takes more than one lease and the last one is shorter than the
      breaker's threshold. */
  lemma EarlierSuccessIsForgottenExactly(nCycles: nat, perLease: nat, maxFailures: nat)
    ensures (exists events :: IsRun(Queued(nCycles, perLease, maxFailures), events) && CrashFree(events)
                              && Wrong(After(Queued(nCycles, perLease, maxFailures), events)))
            <==> WrongInReach(nCycles, perLease, maxFailures)
  {
    var s := Queued(nCycles, perLease, maxFailures);
    assert s.rowDone == 0 * perLease;
    if WrongInReach(nCycles, perLease, maxFailures) {
      var last := UpToLastLease(s);
      LastLease(nCycles, perLease, last.rowDone);
      var end := WholeLease(last, false);
      LeadsOn(s, last, end);
    }
    if events :| IsRun(s, events) && CrashFree(events) && Wrong(After(s, events)) {
      TalliedRun(s, events);
      SettingsFixed(s, events);
    }
  }

  // ---- the procedure

  /** A run of the step relation so far. */
  datatype Trace = Trace(start: State, events: seq<Event>, now: State)

  ghost predicate IsTrace(tr: Trace) {
    IsRun(tr.start, tr.events) && CrashFree(tr.events) && After(tr.start, tr.events) == tr.now && Counted(tr.start)
  }

  lemma NowCounted(tr: Trace)
    requires IsTrace(tr)
    ensures Counted(tr.now)
  {
    CountedRun(tr.start, tr.events);
  }

  ghost function Take(tr: Trace, e: Event): (r: Trace)
    requires IsTrace(tr) && Enabled(tr.now, e) && !e.Restart?
    ensures IsTrace(r) && r.start == tr.start && r.now == Step(tr.now, e)
  {
    OneStep(tr.now, e);
    Append(tr.start, tr.events, [e]);
    Trace(tr.start, tr.events + [e], Step(tr.now, e))
  }

  /** What a run that has come to rest leaves in the row. */
  lemma RestMeans(tr: Trace)
    requires IsTrace(tr) && tr.now.pc.Idle?
    ensures !tr.now.status.Running?
    ensures !tr.now.status.Cancelled? ==> tr.now.rowDone == tr.now.triggered
    ensures tr.now.status.Done? || (tr.now.status.Failed? && tr.now.error == AllUnsuccessful) ==> tr.now.rowDone == tr.start.nCycles
  {
    NowCounted(tr);
    SettingsFixed(tr.start, tr.events);
  }

  /** The daemon's own counters after a cycle that does not end the lease. */
  function AfterCycle(s: State, success: bool): State {
    s.(pc := Top, done := s.done + 1, triggered := s.triggered + 1,
       successes := if success then s.successes + 1 else s.successes,
       succeeded := if success then s.succeeded + 1 else s.succeeded,
       failedCycles := if success then s.failedCycles else s.failedCycles + 1,
       consecutive := if success then 0 else s.consecutive + 1)
  }

  /** What runs beside the daemon: the API reads the status, the API writes a cancel it has read for, a signal. */
  datatype Act = ReadsStatus | WritesCancel | Signals

  /** What happens before each action of one turn of the loop. */
  datatype Turn = Turn(beforeCheck: seq<Act>, inGap: seq<Act>, inFlight: seq<Act>, beforeLook: seq<Act>, beforeWrite: seq<Act>)

  /** s and t differ at most in what acts can change. */
  predicate Beside(s: State, t: State) {
    && t == s.(status := t.status, armed := t.armed, running := t.running)
    && (t.status == s.status || t.status == Cancelled)
    && (t.running ==> s.running)
  }

  /** A lease has just begun on the progress start had stored. */
  predicate AtLeaseStart(s: State, start: State) {
    && s.done == s.leaseStart == start.rowDone && s.successes == s.failedCycles == s.consecutive == 0
    && s.nCycles == start.nCycles && s.perLease == start.perLease && s.maxFailures == start.maxFailures
  }

  /** s counts what the daemon's local variables count. */
  predicate Matches(s: State, done: nat, successes: nat, failedCycles: nat, consecutive: nat) {
    s.done == done && s.successes == successes && s.failedCycles == failedCycles && s.consecutive == consecutive
  }

  /** A row of raw.cycle_queue, with the daemon's flag and the API requests under way. */
  class QueueRow {
    var status: Status
    var cyclesDone: nat
    var error: RowError
    var running: bool
    var armed: nat

    constructor ()
      ensures status == Pending && cyclesDone == 0 && error == NoError && running && armed == 0
    {
      status, cyclesDone, error, running, armed := Pending, 0, NoError, true, 0;
    }

    /** The row holds what s says. */
    ghost predicate Holds(s: State)
      reads this
    {
      status == s.status && cyclesDone == s.rowDone && error == s.error && running == s.running && armed == s.armed
    }

    /** _handle_signal, and the two halves of the API's patch request: a cancellable status is read, and later
        the cancel is written without another look. */
    method Perform(act: Act, ghost tr: Trace) returns (ghost r: Trace)
      requires IsTrace(tr) && Holds(tr.now)
      modifies this`status, this`running, this`armed
      ensures IsTrace(r) && Holds(r.now) && r.start == tr.start && Beside(tr.now, r.now)
    {
      r := tr;
      match act
      case ReadsStatus =>
        if status.Pending? || status.Running? {
          armed := armed + 1;
          r := Take(tr, ApiReads);
        }
      case WritesCancel =>
        if armed > 0 {
          armed, status := armed - 1, Cancelled;
          r := Take(tr, ApiWrites);
        }
      case Signals =>
        running := false;
        r := Take(tr, Signal);
    }

    /** Whatever happens between two actions of the daemon. */
    method Meanwhile(acts: seq<Act>, ghost tr: Trace) returns (ghost r: Trace)
      requires IsTrace(tr) && Holds(tr.now)
      modifies this`status, this`running, this`armed
      ensures IsTrace(r) && Holds(r.now) && r.start == tr.start && Beside(tr.now, r.now)
    {
      r := tr;
      for i := 0 to |acts|
        invariant IsTrace(r) && Holds(r.now) && r.start == tr.start && Beside(tr.now, r.now)
      {
        r := Perform(acts[i], r);
      }
    }

    /** The check after a successful cycle: a cancel written meanwhile stops the lease, otherwise the row goes
        back to running. */
    method AfterSuccess(beforeLook: seq<Act>, beforeWrite: seq<Act>, done: nat, ghost tr: Trace) returns (stop: bool, ghost r: Trace)
      requires IsTrace(tr) && Holds(tr.now) && tr.now.pc.PostCheck? && tr.now.done == done
      modifies this
      ensures IsTrace(r) && Holds(r.now) && r.start == tr.start
      ensures stop ==> r.now.pc.Idle? && status == Cancelled && cyclesDone == done == r.now.triggered
      ensures !stop ==> r.now == tr.now.(pc := Top, status := Running, rowDone := done, armed := r.now.armed, running := r.now.running)
    {
      NowCounted(tr);
      r := Meanwhile(beforeLook, tr);
      r := Take(r, ChecksAfterCycle);
      if status == Cancelled {
        cyclesDone := done;
        return true, r;
      }
      r := Meanwhile(beforeWrite, r);
      status, cyclesDone := Running, done;
      r := Take(r, WritesRunning);
      stop := false;
    }

    /** The check at the top of the loop: a signal or a cancel ends the lease. */
    method CheckAtTop(acts: seq<Act>, done: nat, ghost tr: Trace) returns (stop: bool, ghost r: Trace)
      requires IsTrace(tr) && Holds(tr.now) && tr.now.pc.Top? && tr.now.done == done < LeaseEnd(tr.now)
      modifies this
      ensures IsTrace(r) && Holds(r.now) && r.start == tr.start
      ensures stop ==> r.now.pc.Idle? && status == Cancelled && cyclesDone == done == r.now.triggered
      ensures !stop ==> r.now.pc.Gap? && r.now.running && r.now.status == tr.now.status
                        && Beside(tr.now.(pc := Gap), r.now)
    {
      NowCounted(tr);
      r := Meanwhile(acts, tr);
      stop := !running || status == Cancelled;
      r := Take(r, LoopTop);
      if stop {
        status, cyclesDone := Cancelled, done;
      }
    }

    /** The pacer's wait and the trigger. */
    method TriggerCycle(acts: seq<Act>, ghost tr: Trace) returns (ghost r: Trace)
      requires IsTrace(tr) && Holds(tr.now) && tr.now.pc.Gap?
      modifies this`status, this`running, this`armed
      ensures IsTrace(r) && Holds(r.now) && r.start == tr.start
      ensures Beside(Step(tr.now, Triggers), r.now)
    {
      r := Meanwhile(acts, tr);
      r := Take(r, Triggers);
    }

    /** The wait for the cycle's end: nothing looks at the row meanwhile. */
    method AwaitCycle(success: bool, acts: seq<Act>, ghost tr: Trace) returns (ghost r: Trace)
      requires IsTrace(tr) && Holds(tr.now) && tr.now.pc.InFlight?
      modifies this`status, this`running, this`armed
      ensures IsTrace(r) && Holds(r.now) && r.start == tr.start
      ensures Beside(Step(tr.now, CycleEnds(success)), r.now)
    {
      r := Meanwhile(acts, tr);
      r := Take(r, CycleEnds(success));
    }

    /** One turn of the loop, from the check at its top. stop says whether the lease ends here. */
    method RunCycle(success: bool, acts: Turn, maxFailures: nat, done: nat,
                    consecutive: nat, ghost tr: Trace)
      returns (stop: bool, ghost r: Trace)
      requires IsTrace(tr) && Holds(tr.now) && tr.now.pc.Top? && tr.now.done < LeaseEnd(tr.now)
      requires tr.now.maxFailures == maxFailures && tr.now.done == done && tr.now.consecutive == consecutive
      modifies this
      ensures IsTrace(r) && Holds(r.now) && r.start == tr.start
      ensures stop ==> r.now.pc.Idle? && (status == Cancelled || status == Failed) && cyclesDone == r.now.triggered
      ensures stop && status == Failed ==> error == ConsecutiveFailures && cyclesDone == done + 1
      ensures !stop ==> r.now == AfterCycle(tr.now, success).(status := r.now.status, rowDone := r.now.rowDone,
                                                              armed := r.now.armed, running := r.now.running)
    {
      stop, r := CheckAtTop(acts.beforeCheck, done, tr);
      if stop {
        return;
      }
      r := TriggerCycle(acts.inGap, r);
      r := AwaitCycle(success, acts.inFlight, r);
      if success {
        stop, r := AfterSuccess(acts.beforeLook, acts.beforeWrite, done + 1, r);
      } else {
        stop := consecutive + 1 >= maxFailures;
        if stop { r := BreakLease(acts.beforeLook, done + 1, r); }
      }
    }

    /** The circuit breaker's write, which does not look at the row first. */
    method BreakLease(acts: seq<Act>, done: nat, ghost tr: Trace) returns (ghost r: Trace)
      requires IsTrace(tr) && Holds(tr.now) && tr.now.pc.Breaker? && tr.now.done == done
      modifies this
      ensures IsTrace(r) && Holds(r.now) && r.start == tr.start && r.now.pc.Idle?
      ensures status == Failed && error == ConsecutiveFailures && cyclesDone == done == r.now.triggered
    {
      NowCounted(tr);
      r := Meanwhile(acts, tr);
      status, cyclesDone, error := Failed, done, ConsecutiveFailures;
      r := Take(r, BreakerWrites);
    }

    /** _finish_lease */
    method FinishLease(beforeLook: seq<Act>, beforeWrite: seq<Act>, nCycles: nat, done: nat, successes: nat, failedCycles: nat, ghost tr: Trace)
      returns (ghost r: Trace)
      requires IsTrace(tr) && Holds(tr.now) && tr.now.pc.FinishCheck?
      requires tr.now.nCycles == nCycles && tr.now.done == done && tr.now.successes == successes && tr.now.failedCycles == failedCycles
      modifies this
      ensures IsTrace(r) && Holds(r.now) && r.start == tr.start && r.now.pc.Idle?
      ensures status == Pending ==> cyclesDone == done == tr.now.leaseStart + tr.now.perLease
    {
      r := Meanwhile(beforeLook, tr);
      r := Take(r, ChecksAtFinish);
      if status == Cancelled {
        return;
      }
      r := Meanwhile(beforeWrite, r);
      r := WriteLeaseEnd(nCycles, done, successes, failedCycles, r);
    }

    /** Back to the queue, or the final status. */
    method WriteLeaseEnd(nCycles: nat, done: nat, successes: nat, failedCycles: nat, ghost tr: Trace) returns (ghost r: Trace)
      requires IsTrace(tr) && Holds(tr.now) && tr.now.pc.WriteFinish?
      requires tr.now.nCycles == nCycles && tr.now.done == done && tr.now.successes == successes && tr.now.failedCycles == failedCycles
      modifies this
      ensures IsTrace(r) && Holds(r.now) && r.start == tr.start && r.now.pc.Idle?
      ensures status == Pending ==> cyclesDone == done == tr.now.leaseStart + tr.now.perLease
    {
      NowCounted(tr);
      cyclesDone := done;
      if done < nCycles {
        status := Pending;
      } else {
        status := FinalStatus(successes, failedCycles);
        if status == Failed { error := AllUnsuccessful; }
      }
      r := Take(tr, WritesFinish);
    }

    /** _start_lease and the loading of the competition's configuration. */
    method BeginLease(beforeStart: seq<Act>, beforeLoad: seq<Act>, configLoads: bool, ghost start: State) returns (ghost r: Trace)
      requires start.pc.Idle? && status == Pending && Holds(start) && Counted(start)
      modifies this
      ensures IsTrace(r) && r.start == start && Holds(r.now) && cyclesDone == old(cyclesDone)
      ensures !configLoads ==> r.now.pc.Idle? && status == Failed && error == ConfigError
      ensures configLoads ==> r.now.pc.Top? && AtLeaseStart(r.now, start)
    {
      r := Take(Trace(start, [], start), Pop);
      r := Meanwhile(beforeStart, r);
      status := Running;
      r := Take(r, StartLease);
      r := Meanwhile(beforeLoad, r);
      if !configLoads {
        status, error := Failed, ConfigError;
      }
      r := Take(r, LoadConfig(configLoads));
    }

    /** The loop of _process. stop says whether the lease has ended in it. */
    method RunCycles(leaseEnd: nat, maxFailures: nat, outcome: nat -> bool, acts: nat -> Turn, first: nat, ghost tr: Trace)
      returns (stop: bool, successes: nat, failedCycles: nat, ghost r: Trace)
      requires IsTrace(tr) && Holds(tr.now) && tr.now.pc.Top? && leaseEnd == LeaseEnd(tr.now) && first == tr.now.leaseStart <= leaseEnd
      requires tr.now.maxFailures == maxFailures && Matches(tr.now, first, 0, 0, 0)
      modifies this
      ensures IsTrace(r) && Holds(r.now) && r.start == tr.start
      ensures stop ==> r.now.pc.Idle? && (status == Cancelled || status == Failed)
      ensures !stop ==> r.now.pc.Top? && r.now.done == leaseEnd == LeaseEnd(r.now) && r.now.leaseStart == first
                        && r.now.nCycles == tr.now.nCycles && r.now.perLease == tr.now.perLease
                        && r.now.successes == successes && r.now.failedCycles == failedCycles
    {
      var done, consecutive := first, 0;
      successes, failedCycles, r, stop := 0, 0, tr, false;
      while done < leaseEnd
        invariant first <= done <= leaseEnd == LeaseEnd(r.now)
        invariant IsTrace(r) && r.start == tr.start && Holds(r.now) && r.now.pc.Top? && !stop
        invariant r.now.maxFailures == maxFailures && r.now.leaseStart == first
        invariant r.now.nCycles == tr.now.nCycles && r.now.perLease == tr.now.perLease
        invariant Matches(r.now, done, successes, failedCycles, consecutive)
        decreases leaseEnd - done
      {
        var success, during := outcome(done - first), acts(done - first);
        stop, r := RunCycle(success, during, maxFailures, done, consecutive, r);
        if stop {
          return;
        }
        done := done + 1;
        if success {
          successes, consecutive := successes + 1, 0;
        } else {
          failedCycles, consecutive := failedCycles + 1, consecutive + 1;
        }
      }
    }

    /** The turn of the loop that finds the lease used up, and the lease's end. */
    method CloseLease(last: Turn, nCycles: nat, done: nat, successes: nat, failedCycles: nat, ghost tr: Trace) returns (ghost r: Trace)
      requires IsTrace(tr) && Holds(tr.now) && tr.now.pc.Top? && tr.now.done == done == LeaseEnd(tr.now)
      requires tr.now.nCycles == nCycles && tr.now.successes == successes && tr.now.failedCycles == failedCycles
      modifies this
      ensures IsTrace(r) && Holds(r.now) && r.start == tr.start && r.now.pc.Idle?
      ensures status == Pending ==> cyclesDone == tr.now.leaseStart + tr.now.perLease
    {
      r := Meanwhile(last.beforeCheck, tr);
      r := Take(r, LoopTop);
      r := FinishLease(last.beforeLook, last.beforeWrite, nCycles, done, successes, failedCycles, r);
    }

    /** _process: one lease. outcome says how each cycle of the lease ends, acts what happens before each action of
        each turn of the loop, the last turn being the one that finds the lease used up. The lease is a run of the
        step relation from the queue back to it. */
    method Process(nCycles: nat, perLease: nat, maxFailures: nat, configLoads: bool,
                   outcome: nat -> bool, beforeStart: seq<Act>, beforeLoad: seq<Act>, acts: nat -> Turn, ghost start: State)
      returns (ghost r: Trace)
      requires start.pc.Idle? && status == Pending && Holds(start) && Counted(start)
      requires start.nCycles == nCycles && start.perLease == perLease && start.maxFailures == maxFailures
      modifies this
      ensures IsTrace(r) && r.start == start && r.now.pc.Idle? && Holds(r.now)
      ensures status != Running
      ensures status == Pending ==> cyclesDone == old(cyclesDone) + perLease
      ensures status != Cancelled ==> cyclesDone == r.now.triggered
      ensures status == Done || (status == Failed && error == AllUnsuccessful) ==> cyclesDone == nCycles
    {
      var first := cyclesDone;
      r := BeginLease(beforeStart, beforeLoad, configLoads, start);
      if configLoads {
        var leaseEnd := if nCycles <= first + perLease then nCycles else first + perLease;
        var stop, successes, failedCycles;
        stop, successes, failedCycles, r := RunCycles(leaseEnd, maxFailures, outcome, acts, first, r);
        if !stop {
          r := CloseLease(acts(leaseEnd - first), nCycles, leaseEnd, successes, failedCycles, r);
        }
      }
      RestMeans(r);
    }
  }
}
