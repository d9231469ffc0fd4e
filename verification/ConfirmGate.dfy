/** confirm_and_measure (cycle/promotion.py): the cross-seed and holdout gate, with and without
    PromotionCache. */
module ConfirmGate {
  import opened Python

  /** _eval_context_key: the base source and everything else an evaluation depends on. */
  datatype Context = Context(base: nat, setting: nat)

  /** One call of the gate: the candidate's source, the seeds to reproduce it on, and the seed of the holdout
      measurement if a holdout is given. */
  datatype Request = Request(ctx: Context, candidate: nat, seeds: seq<int>, holdoutSeed: Option<int>)

  /** What evaluations measure when they do not fail. signature is _rounded_signature of the candidate's scores
      and ceiling whether they exceed the leaderboard; gain takes the baseline score it is compared with; sign is
      the metric's direction. */
  datatype Measures = Measures(
    sign: int,
    signature: (Context, nat) -> nat,
    ceiling: (Context, nat) -> bool,
    baselineCv: (Context, int) -> real,
    gain: (Context, nat, int, real) -> real,
    candidateHoldout: (Context, nat, int) -> real,
    baselineHoldout: (Context, int) -> real)

  /** The evaluations one call may run; faults is the set of those that crash in it. */
  datatype Evaluation = BaselineCv(seed: int) | CandidateCv(seed: int) | CandidateHoldout | BaselineHoldout

  datatype Cross = Reproduced | NoGain | Errored

  datatype ConfirmResult = ConfirmResult(
    confirmed: bool,
    cross: Cross,
    holdoutScore: Option<real>,
    regressed: bool,
    measurementFailed: bool)

  // ---- the gate without a cache

  function CrossSeed(m: Measures, q: Request, faults: set<Evaluation>, k: nat): Cross
    requires k <= |q.seeds|
    decreases |q.seeds| - k
  {
    if k == |q.seeds| then Reproduced
    else if BaselineCv(q.seeds[k]) in faults then Errored
    else if CandidateCv(q.seeds[k]) in faults then Errored
    else if m.gain(q.ctx, q.candidate, q.seeds[k], m.baselineCv(q.ctx, q.seeds[k])) <= 0.0 then NoGain
    else CrossSeed(m, q, faults, k + 1)
  }

  predicate Worse(m: Measures, q: Request)
    requires q.holdoutSeed.Some?
  {
    m.sign as real * m.candidateHoldout(q.ctx, q.candidate, q.holdoutSeed.value) <
    m.sign as real * m.baselineHoldout(q.ctx, q.holdoutSeed.value)
  }

  /** confirmed of the uncached gate. */
  predicate Confirms(m: Measures, q: Request, faults: set<Evaluation>) {
    && !m.ceiling(q.ctx, q.candidate)
    && CrossSeed(m, q, faults, 0) == Reproduced
    && (q.holdoutSeed.Some? ==> CandidateHoldout !in faults && BaselineHoldout !in faults && !Worse(m, q))
  }

  /** The verdict when nothing crashes. */
  predicate Verdict(m: Measures, q: Request) {
    Confirms(m, q, {})
  }

  predicate Gains(m: Measures, q: Request, i: nat)
    requires i < |q.seeds|
  {
    m.gain(q.ctx, q.candidate, q.seeds[i], m.baselineCv(q.ctx, q.seeds[i])) > 0.0
  }

  lemma {:induction false} ReproducedExactly(m: Measures, q: Request, faults: set<Evaluation>, k: nat)
    requires k <= |q.seeds|
    ensures CrossSeed(m, q, faults, k) == Reproduced <==>
            forall i :: k <= i < |q.seeds| ==> Gains(m, q, i) && BaselineCv(q.seeds[i]) !in faults && CandidateCv(q.seeds[i]) !in faults
    decreases |q.seeds| - k
  {
    if k < |q.seeds| { ReproducedExactly(m, q, faults, k + 1); }
  }

  /** Who is confirmed: a candidate below the ceiling that gains on every seed and is not worse on the holdout, if
      nothing it needs crashes. A gain of zero is none, an equal holdout score is no loss. */
  lemma ConfirmsExactly(m: Measures, q: Request, faults: set<Evaluation>)
    ensures Confirms(m, q, faults) <==>
            && !m.ceiling(q.ctx, q.candidate)
            && (forall i :: 0 <= i < |q.seeds| ==>
                  m.gain(q.ctx, q.candidate, q.seeds[i], m.baselineCv(q.ctx, q.seeds[i])) > 0.0
                  && BaselineCv(q.seeds[i]) !in faults && CandidateCv(q.seeds[i]) !in faults)
            && (q.holdoutSeed.Some? ==>
                  && CandidateHoldout !in faults && BaselineHoldout !in faults
                  && m.sign as real * m.candidateHoldout(q.ctx, q.candidate, q.holdoutSeed.value) >=
                     m.sign as real * m.baselineHoldout(q.ctx, q.holdoutSeed.value))
  {
    ReproducedExactly(m, q, faults, 0);
    assert forall i :: 0 <= i < |q.seeds| ==>
             (Gains(m, q, i) <==> m.gain(q.ctx, q.candidate, q.seeds[i], m.baselineCv(q.ctx, q.seeds[i])) > 0.0);
  }

  // ---- the cache

  datatype BaselineKey = CvKey(ctx: Context, seed: int) | HoldoutKey(ctx: Context, seed: int)

  datatype MemoKey = MemoKey(ctx: Context, seeds: seq<int>, signature: nat)

  /** Neither the candidate nor the holdout's seed is part of the key. */
  function KeyOf(m: Measures, q: Request): MemoKey {
    MemoKey(q.ctx, q.seeds, m.signature(q.ctx, q.candidate))
  }

  /** What must be equal for one request to meet another's memo: the base with everything else the evaluations depend
      on, the seeds, and the candidates' rounded scores. */
  predicate Alike(m: Measures, p: Request, q: Request) {
    p.ctx == q.ctx && p.seeds == q.seeds && m.signature(p.ctx, p.candidate) == m.signature(q.ctx, q.candidate)
  }

  predicate HasKey(m: Measures, q: Request, k: MemoKey) {
    k.ctx == q.ctx && k.seeds == q.seeds && k.signature == m.signature(q.ctx, q.candidate)
  }

  datatype Cache = Cache(baseline: map<BaselineKey, real>, memo: map<MemoKey, ConfirmResult>)

  /** Some entries may have expired. */
  predicate Within(less: Cache, more: Cache) {
    && (forall k :: k in less.baseline ==> k in more.baseline && less.baseline[k] == more.baseline[k])
    && (forall k :: k in less.memo ==> k in more.memo && less.memo[k] == more.memo[k])
  }

  function CachedCross(m: Measures, q: Request, faults: set<Evaluation>, cache: Cache, k: nat): (Cross, Cache)
    requires k <= |q.seeds|
    decreases |q.seeds| - k
  {
    if k == |q.seeds| then (Reproduced, cache)
    else
      var seed := q.seeds[k];
      var key := CvKey(q.ctx, seed);
      if key !in cache.baseline && BaselineCv(seed) in faults then (Errored, cache)
      else
        var filled := if key in cache.baseline then cache
                      else cache.(baseline := cache.baseline[key := m.baselineCv(q.ctx, seed)]);
        if CandidateCv(seed) in faults then (Errored, filled)
        else if m.gain(q.ctx, q.candidate, seed, filled.baseline[key]) <= 0.0 then (NoGain, filled)
        else CachedCross(m, q, faults, filled, k + 1)
  }

  /** _holdout_gate: (score, regressed, failed) and the cache after it. */
  function CachedHoldout(m: Measures, q: Request, faults: set<Evaluation>, cache: Cache): (Option<real>, bool, bool, Cache)
    requires q.holdoutSeed.Some?
  {
    var seed := q.holdoutSeed.value;
    var key := HoldoutKey(q.ctx, seed);
    if CandidateHoldout in faults then (None, false, true, cache)
    else
      var score := m.candidateHoldout(q.ctx, q.candidate, seed);
      if key !in cache.baseline && BaselineHoldout in faults then (Some(score), false, true, cache)
      else
        var filled := if key in cache.baseline then cache
                      else cache.(baseline := cache.baseline[key := m.baselineHoldout(q.ctx, seed)]);
        (Some(score), m.sign as real * score < m.sign as real * filled.baseline[key], false, filled)
  }

  function CeilingResult(): ConfirmResult {
    ConfirmResult(false, NoGain, None, false, false)
  }

  function MemoPut(m: Measures, cache: Cache, q: Request, r: ConfirmResult): Cache {
    cache.(memo := cache.memo[KeyOf(m, q) := r])
  }

  /** A rejection that was measured: no crash, no failed holdout. */
  predicate Measured(r: ConfirmResult) {
    !r.confirmed && r.cross != Errored && !r.measurementFailed
  }

  /** confirm_and_measure with a cache: its result and the cache after it. */
  function CachedGate(m: Measures, q: Request, faults: set<Evaluation>, cache: Cache): (ConfirmResult, Cache) {
    if KeyOf(m, q) in cache.memo then (cache.memo[KeyOf(m, q)].(confirmed := false), cache)
    else if m.ceiling(q.ctx, q.candidate) then (CeilingResult(), MemoPut(m, cache, q, CeilingResult()))
    else
      var (cross, afterCross) := CachedCross(m, q, faults, cache, 0);
      var (score, regressed, failed, afterHoldout) :=
        if q.holdoutSeed.Some? && cross != Errored then CachedHoldout(m, q, faults, afterCross)
        else (None, false, false, afterCross);
      var r := ConfirmResult(cross == Reproduced && !regressed && !failed, cross, score, regressed, failed);
      (r, if Measured(r) then MemoPut(m, afterHoldout, q, r) else afterHoldout)
  }

  // ---- what a call reports and stores

  /** The seeds a crash-free call gets to: all up to and with the first that shows no gain. */
  predicate ReachesSeed(m: Measures, q: Request, seed: int) {
    exists i: nat :: i < |q.seeds| && q.seeds[i] == seed && forall j: nat :: j < i ==> Gains(m, q, j)
  }

  ghost predicate ReachesFrom(m: Measures, q: Request, k: nat, seed: int) {
    exists i: nat :: k <= i < |q.seeds| && q.seeds[i] == seed && forall j: nat :: k <= j < i ==> Gains(m, q, j)
  }

  lemma ReachesNext(m: Measures, q: Request, k: nat, seed: int)
    requires k < |q.seeds|
    ensures ReachesFrom(m, q, k, seed) <==> q.seeds[k] == seed || (Gains(m, q, k) && ReachesFrom(m, q, k + 1, seed))
  {
    if ReachesFrom(m, q, k, seed) && q.seeds[k] != seed {
      var i: nat :| k <= i < |q.seeds| && q.seeds[i] == seed && forall j: nat :: k <= j < i ==> Gains(m, q, j);
      assert k < i;
    }
    if Gains(m, q, k) && ReachesFrom(m, q, k + 1, seed) {
      var i: nat :| k + 1 <= i < |q.seeds| && q.seeds[i] == seed && forall j: nat :: k + 1 <= j < i ==> Gains(m, q, j);
      assert forall j: nat :: k <= j < i ==> Gains(m, q, j);
    }
  }

  lemma {:induction false} CrossStores(m: Measures, q: Request, cache: Cache, k: nat)
    requires k <= |q.seeds| && BaselinesRight(m, cache)
    ensures var after := CachedCross(m, q, {}, cache, k).1;
            && BaselinesRight(m, after) && after.memo == cache.memo
            && forall key :: key in after.baseline <==> key in cache.baseline || (key.CvKey? && key.ctx == q.ctx && ReachesFrom(m, q, k, key.seed))
    decreases |q.seeds| - k
  {
    if k < |q.seeds| {
      var seed := q.seeds[k];
      var key := CvKey(q.ctx, seed);
      var filled := if key in cache.baseline then cache else cache.(baseline := cache.baseline[key := m.baselineCv(q.ctx, seed)]);
      assert filled.baseline[key] == m.baselineCv(q.ctx, seed);
      forall s { ReachesNext(m, q, k, s); }
      if Gains(m, q, k) { CrossStores(m, q, filled, k + 1); }
    }
  }

  /** A call that crashes nowhere and meets no memo reports what it measured, and stores the baselines it needed: one
      for each seed it got to, and the holdout's. Above the ceiling it measures nothing. */
  lemma FreshCallReports(m: Measures, q: Request, cache: Cache)
    requires BaselinesRight(m, cache) && KeyOf(m, q) !in cache.memo
    ensures var (r, after) := CachedGate(m, q, {}, cache);
            if m.ceiling(q.ctx, q.candidate) then r.holdoutScore.None? && !r.regressed && !r.measurementFailed && after.baseline == cache.baseline
            else
              && r.holdoutScore == (if q.holdoutSeed.Some? then Some(m.candidateHoldout(q.ctx, q.candidate, q.holdoutSeed.value)) else None)
              && (r.regressed <==> q.holdoutSeed.Some? && Worse(m, q)) && !r.measurementFailed
              && (r.cross == Reproduced <==> forall i: nat :: i < |q.seeds| ==> Gains(m, q, i))
              && forall key :: key in after.baseline <==>
                   || key in cache.baseline
                   || (key.CvKey? && key.ctx == q.ctx && ReachesSeed(m, q, key.seed))
                   || (q.holdoutSeed.Some? && key == HoldoutKey(q.ctx, q.holdoutSeed.value))
  {
    if !m.ceiling(q.ctx, q.candidate) {
      CrossStores(m, q, cache, 0);
      CachedCrossFacts(m, q, {}, cache, 0);
      NoFaultNoError(m, q, 0);
      ReproducedExactly(m, q, {}, 0);
      forall s ensures ReachesFrom(m, q, 0, s) <==> ReachesSeed(m, q, s) {}
      if q.holdoutSeed.Some? { CachedHoldoutFacts(m, q, {}, CachedCross(m, q, {}, cache, 0).1); }
    }
  }

  // ---- any sequence of calls

  /** A call with the cache it found. */
  datatype Turn = Turn(request: Request, faults: set<Evaluation>, before: Cache)

  const EMPTY_CACHE: Cache := Cache(map[], map[])

  function ResultOf(m: Measures, t: Turn): ConfirmResult {
    CachedGate(m, t.request, t.faults, t.before).0
  }

  function CacheAfter(m: Measures, turns: seq<Turn>): Cache {
    if turns == [] then EMPTY_CACHE
    else
      var t := turns[|turns| - 1];
      CachedGate(m, t.request, t.faults, t.before).1
  }

  /** Each call starts from what the previous one left, less what has expired. */
  ghost predicate History(m: Measures, turns: seq<Turn>) {
    forall i :: 0 <= i < |turns| ==> Within(turns[i].before, CacheAfter(m, turns[..i]))
  }

  // ---- what the cache holds

  /** Call i of the history left r under key k: a measured rejection of a request that deserves none. */
  ghost predicate RejectedBy(m: Measures, turns: seq<Turn>, i: int, k: MemoKey, r: ConfirmResult) {
    && 0 <= i < |turns|
    && HasKey(m, turns[i].request, k)
    && ResultOf(m, turns[i]) == r && Measured(r)
    && !Verdict(m, turns[i].request)
  }

  /** Baselines are what their evaluation measures. */
  predicate BaselinesRight(m: Measures, cache: Cache) {
    forall k :: k in cache.baseline ==>
      cache.baseline[k] == match k case CvKey(c, s) => m.baselineCv(c, s) case HoldoutKey(c, s) => m.baselineHoldout(c, s)
  }

  /** Besides, each memo was left by a call of the history: never an acceptance, a crash or a failed holdout. */
  ghost predicate Sound(m: Measures, turns: seq<Turn>, cache: Cache) {
    && BaselinesRight(m, cache)
    && (forall k :: k in cache.memo ==> exists i :: RejectedBy(m, turns, i, k, cache.memo[k]))
  }

  // ---- what a crash can change

  /** A crash can only turn an outcome into Errored. */
  lemma {:induction false} CrossUnderFaults(m: Measures, q: Request, faults: set<Evaluation>, k: nat)
    requires k <= |q.seeds|
    ensures CrossSeed(m, q, faults, k) == Errored || CrossSeed(m, q, faults, k) == CrossSeed(m, q, {}, k)
    decreases |q.seeds| - k
  {
    if k < |q.seeds| { CrossUnderFaults(m, q, faults, k + 1); }
  }

  /** With right baselines the cache keeps the cross-seed outcome, except that a stored baseline cannot crash. */
  lemma {:induction false} CachedCrossFacts(m: Measures, q: Request, faults: set<Evaluation>, cache: Cache, k: nat)
    requires k <= |q.seeds| && BaselinesRight(m, cache)
    ensures var (cross, after) := CachedCross(m, q, faults, cache, k);
            && (cross == Errored || cross == CrossSeed(m, q, {}, k))
            && (CrossSeed(m, q, faults, k) != Errored ==> cross == CrossSeed(m, q, faults, k))
            && BaselinesRight(m, after) && after.memo == cache.memo
    decreases |q.seeds| - k
  {
    if k < |q.seeds| {
      var seed := q.seeds[k];
      var key := CvKey(q.ctx, seed);
      if key in cache.baseline || BaselineCv(seed) !in faults {
        var filled := if key in cache.baseline then cache
                      else cache.(baseline := cache.baseline[key := m.baselineCv(q.ctx, seed)]);
        assert BaselinesRight(m, filled);
        assert filled.baseline[key] == m.baselineCv(q.ctx, seed);
        CachedCrossFacts(m, q, faults, filled, k + 1);
        CrossUnderFaults(m, q, faults, k + 1);
      }
    }
  }

  lemma CachedHoldoutFacts(m: Measures, q: Request, faults: set<Evaluation>, cache: Cache)
    requires q.holdoutSeed.Some? && BaselinesRight(m, cache)
    ensures var (score, regressed, failed, after) := CachedHoldout(m, q, faults, cache);
            && (!failed ==> (regressed <==> Worse(m, q)))
            && (failed ==> !regressed && (CandidateHoldout in faults || BaselineHoldout in faults))
            && (!failed ==> CandidateHoldout !in faults)
            && BaselinesRight(m, after) && after.memo == cache.memo
  {}

  /** A call that finds no memo: what it decides and what it stores. */
  lemma FreshCall(m: Measures, q: Request, faults: set<Evaluation>, cache: Cache)
    requires BaselinesRight(m, cache) && KeyOf(m, q) !in cache.memo
    ensures var (r, after) := CachedGate(m, q, faults, cache);
            && (Confirms(m, q, faults) ==> r.confirmed)
            && (r.confirmed ==> Verdict(m, q))
            && (Measured(r) ==> !Verdict(m, q))
            && BaselinesRight(m, after)
            && after.memo == if Measured(r) then cache.memo[KeyOf(m, q) := r] else cache.memo
  {
    if !m.ceiling(q.ctx, q.candidate) {
      CachedCrossFacts(m, q, faults, cache, 0);
      CrossUnderFaults(m, q, faults, 0);
      var afterCross := CachedCross(m, q, faults, cache, 0).1;
      if q.holdoutSeed.Some? { CachedHoldoutFacts(m, q, faults, afterCross); }
    }
  }

  lemma LaterTurnsKeep(m: Measures, turns: seq<Turn>, t: Turn, cache: Cache)
    requires Sound(m, turns, cache)
    ensures Sound(m, turns + [t], cache)
  {
    forall k | k in cache.memo ensures exists i :: RejectedBy(m, turns + [t], i, k, cache.memo[k]) {
      var i :| RejectedBy(m, turns, i, k, cache.memo[k]);
      assert RejectedBy(m, turns + [t], i, k, cache.memo[k]);
    }
  }

  /** The gate keeps its cache sound, whatever crashes. */
  lemma GateKeepsSound(m: Measures, turns: seq<Turn>, t: Turn)
    requires Sound(m, turns, t.before)
    ensures Sound(m, turns + [t], CachedGate(m, t.request, t.faults, t.before).1)
  {
    LaterTurnsKeep(m, turns, t, t.before);
    if KeyOf(m, t.request) !in t.before.memo {
      FreshCall(m, t.request, t.faults, t.before);
      var r := ResultOf(m, t);
      if Measured(r) {
        assert RejectedBy(m, turns + [t], |turns|, KeyOf(m, t.request), r);
      }
    }
  }

  lemma HistoryInit(m: Measures, turns: seq<Turn>)
    requires turns != [] && History(m, turns)
    ensures var n := |turns| - 1; History(m, turns[..n]) && Within(turns[n].before, CacheAfter(m, turns[..n]))
  {
    var init := turns[..|turns| - 1];
    forall i | 0 <= i < |init| ensures Within(init[i].before, CacheAfter(m, init[..i])) {
      assert init[..i] == turns[..i];
    }
  }

  lemma TurnKeepsSound(m: Measures, turns: seq<Turn>, t: Turn, left: Cache)
    requires Sound(m, turns, left) && Within(t.before, left)
    ensures Sound(m, turns + [t], CacheAfter(m, turns + [t]))
  {
    ExpiryKeepsSound(m, turns, t.before, left);
    GateKeepsSound(m, turns, t);
    assert (turns + [t])[|turns|] == t;
  }

  lemma {:induction false} HistorySound(m: Measures, turns: seq<Turn>)
    requires History(m, turns)
    ensures Sound(m, turns, CacheAfter(m, turns))
  {
    if turns != [] {
      var init, t := turns[..|turns| - 1], turns[|turns| - 1];
      HistoryInit(m, turns);
      HistorySound(m, init);
      TurnKeepsSound(m, init, t, CacheAfter(m, init));
      assert turns == init + [t];
    }
  }

  lemma ExpiryKeepsSound(m: Measures, turns: seq<Turn>, less: Cache, more: Cache)
    requires Sound(m, turns, more) && Within(less, more)
    ensures Sound(m, turns, less)
  {
    forall k | k in less.memo ensures exists i :: RejectedBy(m, turns, i, k, less.memo[k]) {
      var i :| RejectedBy(m, turns, i, k, more.memo[k]);
      assert RejectedBy(m, turns, i, k, less.memo[k]);
    }
  }

  // ---- against the gate without a cache

  /** A call of the history rejected a request like q, and its memo is still there. */
  ghost predicate Remembered(m: Measures, turns: seq<Turn>, before: Cache, q: Request) {
    exists k, i :: k in before.memo && HasKey(m, q, k) && RejectedBy(m, turns, i, k, before.memo[k])
  }

  lemma RememberedMeansStored(m: Measures, turns: seq<Turn>, before: Cache, q: Request)
    requires Sound(m, turns, before)
    ensures Remembered(m, turns, before, q) <==> KeyOf(m, q) in before.memo
  {
    if KeyOf(m, q) in before.memo {
      var i :| RejectedBy(m, turns, i, KeyOf(m, q), before.memo[KeyOf(m, q)]);
    }
  }

  /** After any sequence of calls, with any crashes and expiries in it, a call that crashes nowhere confirms
      exactly what the uncached gate confirms, except where the rejection of a request like it is remembered. */
  lemma CachedGateConfirmsExactly(m: Measures, turns: seq<Turn>, q: Request, before: Cache)
    requires History(m, turns) && Within(before, CacheAfter(m, turns))
    ensures CachedGate(m, q, {}, before).0.confirmed <==> Confirms(m, q, {}) && !Remembered(m, turns, before, q)
    ensures CachedGate(m, q, {}, before).0.confirmed != Confirms(m, q, {}) <==> Verdict(m, q) && Remembered(m, turns, before, q)
  {
    HistorySound(m, turns);
    ExpiryKeepsSound(m, turns, before, CacheAfter(m, turns));
    RememberedMeansStored(m, turns, before, q);
    if KeyOf(m, q) !in before.memo { FreshCall(m, q, {}, before); }
  }

  /** A call that meets a memo evaluates nothing: it reports what the rejected request's call reported, and leaves the
      cache as it is. */
  lemma MemoRepeatsTheReport(m: Measures, turns: seq<Turn>, q: Request, faults: set<Evaluation>, before: Cache) returns (i: nat)
    requires History(m, turns) && Within(before, CacheAfter(m, turns)) && Remembered(m, turns, before, q)
    ensures i < |turns| && Alike(m, turns[i].request, q) && !ResultOf(m, turns[i]).confirmed
    ensures CachedGate(m, q, faults, before) == (ResultOf(m, turns[i]), before)
  {
    var k, j :| k in before.memo && HasKey(m, q, k) && RejectedBy(m, turns, j, k, before.memo[k]);
    i := j;
    assert k == KeyOf(m, q);
  }

  /** A verdict differs only by a rejection of a request with the same base, the same other settings, the same seeds
      and the same rounded scores. */
  lemma OtherRejectionsChangeNothing(m: Measures, turns: seq<Turn>, q: Request, before: Cache)
    requires History(m, turns) && Within(before, CacheAfter(m, turns))
    requires forall i :: 0 <= i < |turns| ==>
               var p := turns[i].request;
               p.ctx.base != q.ctx.base || p.ctx.setting != q.ctx.setting || p.seeds != q.seeds
               || m.signature(p.ctx, p.candidate) != m.signature(q.ctx, q.candidate) || Verdict(m, p)
    ensures CachedGate(m, q, {}, before).0.confirmed <==> Confirms(m, q, {})
  {
    CachedGateConfirmsExactly(m, turns, q, before);
  }

  /** Whoever in the history is like q deserves the verdict q deserves. */
  ghost predicate SignatureDecides(m: Measures, turns: seq<Turn>, q: Request) {
    forall i :: 0 <= i < |turns| && Alike(m, turns[i].request, q) ==>
      Verdict(m, turns[i].request) == Verdict(m, q)
  }

  /** Where the signature decides among the requests of the history, the cache changes no verdict: a call that
      crashes nowhere confirms exactly what the uncached gate confirms; one that crashes never confirms more than
      the crash-free gate, nor less than the uncached gate under the same crashes. */
  lemma CachedGateRefinesUncached(m: Measures, turns: seq<Turn>, q: Request, faults: set<Evaluation>, before: Cache)
    requires History(m, turns) && Within(before, CacheAfter(m, turns))
    requires SignatureDecides(m, turns, q)
    ensures var confirmed := CachedGate(m, q, faults, before).0.confirmed;
            && (faults == {} ==> (confirmed <==> Confirms(m, q, {})))
            && (Confirms(m, q, faults) ==> confirmed)
            && (confirmed ==> Confirms(m, q, {}))
  {
    HistorySound(m, turns);
    ExpiryKeepsSound(m, turns, before, CacheAfter(m, turns));
    if KeyOf(m, q) in before.memo {
      RememberedDeserves(m, turns, q, before);
      ConfirmsDeserves(m, q, faults);
    } else {
      FreshCall(m, q, faults, before);
      ConfirmsDeserves(m, q, faults);
    }
  }

  lemma RememberedDeserves(m: Measures, turns: seq<Turn>, q: Request, before: Cache)
    requires Sound(m, turns, before) && SignatureDecides(m, turns, q) && KeyOf(m, q) in before.memo
    ensures !Verdict(m, q)
  {
    var i :| RejectedBy(m, turns, i, KeyOf(m, q), before.memo[KeyOf(m, q)]);
  }

  lemma ConfirmsDeserves(m: Measures, q: Request, faults: set<Evaluation>)
    ensures Confirms(m, q, faults) ==> Verdict(m, q)
  {
    CrossUnderFaults(m, q, faults, 0);
  }

  /** The rejection a crash-free call leaves is what a later request like it meets, whatever that one deserves. */
  lemma SharedSignatureRejects(m: Measures, p: Request, q: Request)
    requires Alike(m, p, q) && !Verdict(m, p)
    ensures var turns := [Turn(p, {}, EMPTY_CACHE)];
            && History(m, turns) && Remembered(m, turns, CacheAfter(m, turns), q)
            && !CachedGate(m, q, {}, CacheAfter(m, turns)).0.confirmed
  {
    var t := Turn(p, {}, EMPTY_CACHE);
    assert [t][..0] == [];
    FreshCall(m, p, {}, EMPTY_CACHE);
    NeverErrs(m, p);
    assert RejectedBy(m, [t], 0, KeyOf(m, q), ResultOf(m, t));
  }

  /** Nothing of this is empty: a history with a remembered rejection, in which the signature decides, and a
      candidate that is confirmed after it. */
  lemma RejectedThenConfirmed() returns (m: Measures, turns: seq<Turn>, q: Request)
    ensures History(m, turns) && |turns| == 1 && SignatureDecides(m, turns, q)
    ensures CacheAfter(m, turns).memo != map[]
    ensures Confirms(m, q, {}) && CachedGate(m, q, {}, CacheAfter(m, turns)).0.confirmed
  {
    m := Measures(1, (c, n) => n, (c, n) => false, (c, s) => 0.5, (c, n, s, base) => n as real - base,
                  (c, n, s) => 0.5, (c, s) => 0.5);
    var p := Request(Context(0, 0), 0, [1], Some(7));
    q := p.(candidate := 1);
    turns := [Turn(p, {}, EMPTY_CACHE)];
    assert m.gain(p.ctx, 0, 1, m.baselineCv(p.ctx, 1)) == -0.5;
    assert CrossSeed(m, p, {}, 0) == NoGain;
    assert m.gain(q.ctx, 1, 1, m.baselineCv(q.ctx, 1)) == 0.5;
    assert CrossSeed(m, q, {}, 1) == Reproduced;
    assert Verdict(m, q);
    SharedSignatureRejects(m, p, p);
    assert !Alike(m, p, q);
    assert turns[0].request == p;
    CachedGateRefinesUncached(m, turns, q, {}, CacheAfter(m, turns));
  }

  lemma NeverErrs(m: Measures, q: Request)
    ensures KeyOf(m, q) !in EMPTY_CACHE.memo
    ensures CachedGate(m, q, {}, EMPTY_CACHE).0.cross != Errored && !CachedGate(m, q, {}, EMPTY_CACHE).0.measurementFailed
    ensures !CachedGate(m, q, {}, EMPTY_CACHE).0.confirmed ==> Measured(CachedGate(m, q, {}, EMPTY_CACHE).0)
  {
    CachedCrossFacts(m, q, {}, EMPTY_CACHE, 0);
    NoFaultNoError(m, q, 0);
    if q.holdoutSeed.Some? {
      CachedHoldoutFacts(m, q, {}, CachedCross(m, q, {}, EMPTY_CACHE, 0).1);
    }
  }

  lemma {:induction false} NoFaultNoError(m: Measures, q: Request, k: nat)
    requires k <= |q.seeds|
    ensures CrossSeed(m, q, {}, k) != Errored
    decreases |q.seeds| - k
  {
    if k < |q.seeds| { NoFaultNoError(m, q, k + 1); }
  }

  // ---- the procedure

  /** The two tables behind PromotionCache. turns only serves the proofs: the calls so far. */
  class PromotionCache {
    var baseline: map<BaselineKey, real>
    var memo: map<MemoKey, ConfirmResult>
    ghost var turns: seq<Turn>

    constructor ()
      ensures Tables() == EMPTY_CACHE && turns == []
    {
      baseline, memo, turns := map[], map[], [];
    }

    function Tables(): Cache
      reads this
    {
      Cache(baseline, memo)
    }

    /** Entries past their time to live are no longer read. */
    method Expire(m: Measures, baselines: set<BaselineKey>, memos: set<MemoKey>)
      modifies this`baseline, this`memo
      ensures Within(Tables(), old(Tables()))
      ensures Sound(m, turns, old(Tables())) ==> Sound(m, turns, Tables())
    {
      ghost var before := Tables();
      baseline, memo := baseline - baselines, memo - memos;
      if Sound(m, turns, before) { ExpiryKeepsSound(m, turns, Tables(), before); }
    }

    /** _baseline_cv: a stored score, or a fresh one that is stored unless it crashed. */
    method BaselineScore(m: Measures, q: Request, seed: int, faults: set<Evaluation>) returns (score: Option<real>)
      modifies this`baseline
      ensures var key := CvKey(q.ctx, seed);
              if key in old(baseline) then score == Some(old(baseline)[key]) && baseline == old(baseline)
              else if BaselineCv(seed) in faults then score.None? && baseline == old(baseline)
              else score == Some(m.baselineCv(q.ctx, seed)) && baseline == old(baseline)[key := score.value]
    {
      var key := CvKey(q.ctx, seed);
      if key in baseline {
        return Some(baseline[key]);
      }
      if BaselineCv(seed) in faults {
        return None;
      }
      score := Some(m.baselineCv(q.ctx, seed));
      baseline := baseline[key := score.value];
    }

    /** _cross_seed_confirm: stops at the first seed that crashes or shows no gain over the score it got. */
    method CrossSeedConfirm(m: Measures, q: Request, faults: set<Evaluation>) returns (cross: Cross)
      modifies this`baseline
      ensures (cross, Tables()) == CachedCross(m, q, faults, old(Tables()), 0)
    {
      var k := 0;
      while k < |q.seeds|
        invariant 0 <= k <= |q.seeds|
        invariant memo == old(memo)
        invariant CachedCross(m, q, faults, Tables(), k) == CachedCross(m, q, faults, old(Tables()), 0)
      {
        var seed := q.seeds[k];
        var base := BaselineScore(m, q, seed, faults);
        if base.None? {
          return Errored;
        }
        if CandidateCv(seed) in faults {
          return Errored;
        }
        if m.gain(q.ctx, q.candidate, seed, base.value) <= 0.0 {
          return NoGain;
        }
        k := k + 1;
      }
      cross := Reproduced;
    }

    /** _holdout_gate */
    method HoldoutGate(m: Measures, q: Request, faults: set<Evaluation>)
      returns (score: Option<real>, regressed: bool, failed: bool)
      requires q.holdoutSeed.Some?
      modifies this`baseline
      ensures (score, regressed, failed, Tables()) == CachedHoldout(m, q, faults, old(Tables()))
    {
      var seed := q.holdoutSeed.value;
      if CandidateHoldout in faults {
        return None, false, true;
      }
      var candidate := m.candidateHoldout(q.ctx, q.candidate, seed);
      score := Some(candidate);
      var key := HoldoutKey(q.ctx, seed);
      if key !in baseline {
        if BaselineHoldout in faults {
          return score, false, true;
        }
        baseline := baseline[key := m.baselineHoldout(q.ctx, seed)];
      }
      regressed := m.sign as real * candidate < m.sign as real * baseline[key];
      failed := false;
    }

    /** confirm_and_measure */
    method ConfirmAndMeasure(m: Measures, q: Request, faults: set<Evaluation>) returns (r: ConfirmResult)
      requires Sound(m, turns, Tables())
      modifies this
      ensures (r, Tables()) == CachedGate(m, q, faults, old(Tables()))
      ensures turns == old(turns) + [Turn(q, faults, old(Tables()))]
      ensures Sound(m, turns, Tables())
      ensures faults == {} ==> (r.confirmed <==> Confirms(m, q, {}) && !Remembered(m, old(turns), old(Tables()), q))
    {
      ghost var before := Tables();
      RememberedMeansStored(m, turns, before, q);
      GateKeepsSound(m, turns, Turn(q, faults, before));
      if KeyOf(m, q) !in memo { FreshCall(m, q, faults, before); }
      turns := turns + [Turn(q, faults, before)];
      var key := KeyOf(m, q);
      if key in memo {
        return memo[key].(confirmed := false);
      }
      if m.ceiling(q.ctx, q.candidate) {
        r := CeilingResult();
        memo := memo[key := r];
        return;
      }
      var cross := CrossSeedConfirm(m, q, faults);
      var score: Option<real> := None;
      var regressed, failed := false, false;
      if q.holdoutSeed.Some? && cross != Errored {
        score, regressed, failed := HoldoutGate(m, q, faults);
      }
      r := ConfirmResult(cross == Reproduced && !regressed && !failed, cross, score, regressed, failed);
      if Measured(r) {
        memo := memo[key := r];
      }
    }
  }
}
