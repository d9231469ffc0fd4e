/** The decayed Beta bandit over action types (cycle/action_optimizer.py). */
module Bandit {
  import opened Python

  datatype Label = Jump | Regression | Neutral

  datatype Attempt = Attempt(outcome: Label, gain: Option<real>, errored: bool, noopTie: bool)

  const DECAY := 0.95

  /** The stored posterior of one action. */
  datatype Arm = Arm(alpha: real, beta: real)

  const FRESH := Arm(1.0, 1.0)

  /** bandit_deltas */
  function Deltas(a: Attempt): (real, real) {
    if a.errored || a.outcome == Regression then (0.0, 1.0)
    else if a.noopTie then (0.0, 1.0)
    else if a.outcome == Jump then (1.0, 0.0)
    else if a.gain.Some? && a.gain.value > 0.0 then (0.5, 0.1)
    else (0.1, 0.1)
  }

  /** update_bandit: shrink towards the prior, then add. On a missing row the prior is what gets shrunk. */
  function Updated(arm: Arm, a: Attempt): Arm {
    var d := Deltas(a);
    Arm(1.0 + (arm.alpha - 1.0) * DECAY + d.0, 1.0 + (arm.beta - 1.0) * DECAY + d.1)
  }

  /** raw.action_bandit. */
  class Table {
    var arms: map<string, Arm>

    constructor ()
      ensures arms == map[]
    {
      arms := map[];
    }

    function Get(action: string): Arm
      reads this
    {
      if action in arms then arms[action] else FRESH
    }

    /** update_bandit: insert, or update on conflict. */
    method Update(known: set<string>, action: string, a: Attempt)
      modifies this
      ensures action !in known ==> arms == old(arms)
      ensures action in known ==> arms == old(arms)[action := Updated(old(Get(action)), a)]
    {
      if action !in known {
        return;
      }
      var d := Deltas(a);
      if action in arms {
        var arm := arms[action];
        arms := arms[action := Arm(1.0 + (arm.alpha - 1.0) * DECAY + d.0, 1.0 + (arm.beta - 1.0) * DECAY + d.1)];
      } else {
        arms := arms[action := Arm(1.0 + d.0, 1.0 + d.1)];
      }
    }
  }

  function After(arm: Arm, attempts: seq<Attempt>): Arm {
    if attempts == [] then arm else Updated(After(arm, attempts[..|attempts| - 1]), attempts[|attempts| - 1])
  }

  function Observed(arm: Arm): real {
    (arm.alpha - 1.0) + (arm.beta - 1.0)
  }

  /** _is_dead_action */
  predicate Dead(arm: Arm)
    requires arm.alpha + arm.beta != 0.0
  {
    Observed(arm) >= 5.0 && arm.alpha / (arm.alpha + arm.beta) < 0.1
  }

  predicate Bounded(arm: Arm) {
    arm.alpha >= 1.0 && arm.beta >= 1.0 && Observed(arm) < 20.0
  }

  /** Over every sequence of updates both parameters stay at least 1 and the observed mass below 20. */
  lemma {:induction false} BoundsHold(attempts: seq<Attempt>)
    ensures Bounded(After(FRESH, attempts))
  {
    if attempts != [] {
      BoundsHold(attempts[..|attempts| - 1]);
    }
  }

  lemma Tenth(a: real, b: real)
    requires b > 0.0
    ensures a / b < 0.1 <==> 10.0 * a < b
  {
    var m := a / b;
    assert m * b == a;
    if m < 0.1 {
      MulLess(m, b);
    } else {
      MulAtLeast(m, b);
    }
  }

  lemma MulLess(m: real, b: real)
    requires b > 0.0 && m < 0.1
    ensures m * b < 0.1 * b
  {}

  lemma MulAtLeast(m: real, b: real)
    requires b > 0.0 && m >= 0.1
    ensures m * b >= 0.1 * b
  {}

  /** A low mean alone makes a reachable action dead: the threshold on the observed mass never decides. */
  lemma LowMeanIsDead(arm: Arm)
    requires Bounded(arm)
    ensures Dead(arm) <==> arm.alpha / (arm.alpha + arm.beta) < 0.1
    ensures Dead(arm) <==> 9.0 * arm.alpha < arm.beta
  {
    Tenth(arm.alpha, arm.alpha + arm.beta);
  }

  /** Whatever is stored: an arm is dead from a total of seven on, when alpha is less than a ninth of beta. */
  lemma DeadExactly(arm: Arm)
    requires arm.alpha + arm.beta > 0.0
    ensures Dead(arm) <==> arm.alpha + arm.beta >= 7.0 && 9.0 * arm.alpha < arm.beta
  {
    Tenth(arm.alpha, arm.alpha + arm.beta);
  }

  predicate Fails(a: Attempt) {
    a.errored || a.outcome == Regression || a.noopTie
  }

  predicate AllFail(attempts: seq<Attempt>) {
    forall i :: 0 <= i < |attempts| ==> Fails(attempts[i])
  }

  function Power(k: nat): real {
    if k == 0 then 1.0 else DECAY * Power(k - 1)
  }

  lemma {:induction false} PowerAdds(j: nat, k: nat)
    ensures Power(j + k) == Power(j) * Power(k)
  {
    if j > 0 {
      PowerAdds(j - 1, k);
      assert Power(j + k) == DECAY * Power(j - 1 + k);
    }
  }

  lemma {:induction false} PowerBounds(k: nat)
    ensures 0.0 < Power(k) <= 1.0
  {
    if k > 0 { PowerBounds(k - 1); }
  }

  /** k failures in a row: both masses shrink by the k-th power of the decay, and beta gains the rest of 20. */
  lemma {:induction false} FailuresInARow(arm: Arm, attempts: seq<Attempt>)
    requires AllFail(attempts)
    ensures var q := Power(|attempts|);
            After(arm, attempts) == Arm(1.0 + (arm.alpha - 1.0) * q, 1.0 + (arm.beta - 1.0) * q + 20.0 * (1.0 - q))
  {
    if attempts != [] {
      FailuresInARow(arm, attempts[..|attempts| - 1]);
      assert Deltas(attempts[|attempts| - 1]) == (0.0, 1.0);
    }
  }

  /** A jump that neither errored nor tied as a no-op. */
  predicate Jumps(a: Attempt) {
    !a.errored && !a.noopTie && a.outcome == Jump
  }

  /** A neutral attempt with a positive gain, and one without. */
  predicate Gains(a: Attempt) {
    !a.errored && !a.noopTie && a.outcome == Neutral && a.gain.Some? && a.gain.value > 0.0
  }

  predicate Idles(a: Attempt) {
    !a.errored && !a.noopTie && a.outcome == Neutral && (a.gain.None? || a.gain.value <= 0.0)
  }

  /** Every attempt is of exactly one of four kinds. */
  lemma FourKinds(a: Attempt)
    ensures Fails(a) || Jumps(a) || Gains(a) || Idles(a)
    ensures !(Fails(a) && Jumps(a)) && !(Fails(a) && Gains(a)) && !(Fails(a) && Idles(a))
    ensures !(Jumps(a) && Gains(a)) && !(Jumps(a) && Idles(a)) && !(Gains(a) && Idles(a))
  {}

  lemma {:induction false} JumpsInARow(arm: Arm, attempts: seq<Attempt>)
    requires forall i :: 0 <= i < |attempts| ==> Jumps(attempts[i])
    ensures var q := Power(|attempts|);
            After(arm, attempts) == Arm(1.0 + (arm.alpha - 1.0) * q + 20.0 * (1.0 - q), 1.0 + (arm.beta - 1.0) * q)
  {
    if attempts != [] { JumpsInARow(arm, attempts[..|attempts| - 1]); }
  }

  /** Half a success and a tenth of a failure each. */
  lemma {:induction false} GainsInARow(arm: Arm, attempts: seq<Attempt>)
    requires forall i :: 0 <= i < |attempts| ==> Gains(attempts[i])
    ensures var q := Power(|attempts|);
            After(arm, attempts) == Arm(1.0 + (arm.alpha - 1.0) * q + 10.0 * (1.0 - q), 1.0 + (arm.beta - 1.0) * q + 2.0 * (1.0 - q))
  {
    if attempts != [] { GainsInARow(arm, attempts[..|attempts| - 1]); }
  }

  lemma {:induction false} IdlesInARow(arm: Arm, attempts: seq<Attempt>)
    requires forall i :: 0 <= i < |attempts| ==> Idles(attempts[i])
    ensures var q := Power(|attempts|);
            After(arm, attempts) == Arm(1.0 + (arm.alpha - 1.0) * q + 2.0 * (1.0 - q), 1.0 + (arm.beta - 1.0) * q + 2.0 * (1.0 - q))
  {
    if attempts != [] { IdlesInARow(arm, attempts[..|attempts| - 1]); }
  }

  /** However many attempts do nothing, a fresh action keeps its mean of one half and never shows enough to be judged. */
  lemma IdlingDecidesNothing(attempts: seq<Attempt>)
    requires forall i :: 0 <= i < |attempts| ==> Idles(attempts[i])
    ensures var arm := After(FRESH, attempts); arm.alpha == arm.beta && 0.0 <= Observed(arm) < 4.0
  {
    IdlesInARow(FRESH, attempts);
    PowerBounds(|attempts|);
  }

  lemma ProductBelow(a: real, b: real, x: real, y: real)
    requires 0.0 < a < x && 0.0 < b < y
    ensures a * b < x * y
  {
    assert a * b < x * b < x * y;
  }

  lemma Doubled(k: nat, n: nat, bound: real)
    requires n == k + k && Power(k) < bound
    ensures Power(n) < bound * bound
  {
    PowerBounds(k);
    PowerAdds(k, k);
    ProductBelow(Power(k), Power(k), bound, bound);
  }

  lemma Summed(j: nat, k: nat, n: nat, x: real, y: real)
    requires n == j + k && Power(j) < x && Power(k) < y
    ensures Power(n) < x * y
  {
    PowerBounds(j);
    PowerBounds(k);
    PowerAdds(j, k);
    ProductBelow(Power(j), Power(k), x, y);
  }

  lemma NinthAndTenth(one: nat, nine: nat, ten: nat)
    requires one == 1 && nine == 9 && ten == 10
    ensures Power(nine) > 0.63 && Power(ten) < 0.5988
  {
    assert Power(one) == 0.95 * Power(one - 1) && Power(one - 1) == 1.0;
    PowerAdds(one, one);
    PowerAdds(one + one, one + one);
    var four := nine - 5;
    assert Power(four) == 0.81450625;
    PowerAdds(four, four);
    assert Power(four + four) == 0.81450625 * 0.81450625;
    PowerAdds(nine - 1, one);
    PowerAdds(nine, one);
  }

  /** Bounds on the powers the thresholds turn on. */
  lemma PowerTable(nine: nat, ten: nat, fiftyFive: nat)
    requires nine == 9 && ten == 10 && fiftyFive == 55
    ensures Power(nine) > 0.63 && Power(ten) < 0.5988 && Power(fiftyFive) < 0.06
  {
    NinthAndTenth(nine - 8, nine, ten);
    var twenty, forty, fifty := ten + ten, fiftyFive - 15, fiftyFive - 5;
    Doubled(ten, twenty, 0.5988);
    Doubled(twenty, forty, 0.3586);
    Summed(forty, ten, fifty, 0.1286, 0.5988);
    FifthBelow(fiftyFive - 50, ten);
    Summed(fifty, fiftyFive - 50, fiftyFive, 0.07701, 0.7739);
  }

  lemma FifthBelow(five: nat, ten: nat)
    requires five == 5 && ten == 10
    ensures Power(five) < 0.7739
  {
    var one := five - 4;
    assert Power(one) == 0.95 * Power(one - 1) && Power(one - 1) == 1.0;
    PowerAdds(one, one);
    PowerAdds(one + one, one + one);
    PowerAdds(five - 1, one);
  }

  lemma {:induction false} PowerFalls(j: nat, k: nat)
    requires j <= k
    ensures Power(k) <= Power(j)
    decreases k - j
  {
    if j < k {
      PowerFalls(j + 1, k);
      PowerBounds(j);
    }
  }

  lemma TenthDecides(k: nat, nine: nat, ten: nat, fiftyFive: nat)
    requires nine == 9 && ten == 10 && fiftyFive == 55
    ensures k >= 10 ==> Power(k) < 0.6
    ensures k <= 9 ==> Power(k) > 0.6
    ensures k >= 55 ==> Power(k) < 0.06
  {
    PowerTable(nine, ten, fiftyFive);
    if k >= 10 { PowerFalls(ten, k); } else { PowerFalls(k, nine); }
    if k >= 55 { PowerFalls(fiftyFive, k); }
  }

  /** A fresh action dies at the tenth failure in a row, not before. */
  lemma FreshDiesAtTenthFailure(attempts: seq<Attempt>)
    requires AllFail(attempts)
    ensures Bounded(After(FRESH, attempts))
    ensures Dead(After(FRESH, attempts)) <==> |attempts| >= 10
  {
    FailuresInARow(FRESH, attempts);
    BoundsHold(attempts);
    LowMeanIsDead(After(FRESH, attempts));
    TenthDecides(|attempts|, 9, 10, 55);
  }

  /** What is left of earlier observations is too little to keep the mean up. */
  lemma DecayedArmIsDead(x: real, y: real, q: real, end: Arm)
    requires x >= 0.0 && y >= 0.0 && x + y < 20.0 * q && 0.0 < q < 0.06
    requires end == Arm(1.0 + x, 1.0 + y + 20.0 * (1.0 - q))
    ensures Bounded(end) && Dead(end)
  {
    assert 9.0 * end.alpha < end.beta;
    LowMeanIsDead(end);
  }

  lemma Scaled(a: real, b: real, q: real) returns (x: real, y: real)
    requires a >= 0.0 && b >= 0.0 && a + b < 20.0 && q > 0.0
    ensures x == a * q && y == b * q
    ensures x >= 0.0 && y >= 0.0 && x + y < 20.0 * q
  {
    x, y := a * q, b * q;
    var slack := 20.0 - a - b;
    Positive(slack, q);
    assert slack * q == 20.0 * q - x - y;
  }

  lemma Positive(a: real, b: real)
    requires a > 0.0 && b > 0.0
    ensures a * b > 0.0
  {}

  lemma Shrunk(arm: Arm, attempts: seq<Attempt>) returns (x: real, y: real, q: real)
    requires Bounded(arm) && AllFail(attempts)
    ensures q == Power(|attempts|) && 0.0 < q
    ensures x >= 0.0 && y >= 0.0 && x + y < 20.0 * q
    ensures After(arm, attempts) == Arm(1.0 + x, 1.0 + y + 20.0 * (1.0 - q))
  {
    FailuresInARow(arm, attempts);
    q := Power(|attempts|);
    PowerBounds(|attempts|);
    x, y := Scaled(arm.alpha - 1.0, arm.beta - 1.0, q);
  }

  /** 55 failures in a row kill any reachable action. */
  lemma AnyDiesAfter55Failures(before: seq<Attempt>, attempts: seq<Attempt>)
    requires AllFail(attempts) && |attempts| >= 55
    ensures Bounded(After(After(FRESH, before), attempts)) && Dead(After(After(FRESH, before), attempts))
  {
    BoundsHold(before);
    var x, y, q := Shrunk(After(FRESH, before), attempts);
    TenthDecides(|attempts|, 9, 10, 55);
    DecayedArmIsDead(x, y, q, After(After(FRESH, before), attempts));
  }

  /** More failures keep a dead action dead. */
  lemma {:induction false} DeathPersists(arm: Arm, attempts: seq<Attempt>)
    requires Bounded(arm) && Dead(arm) && AllFail(attempts)
    ensures Bounded(After(arm, attempts)) && Dead(After(arm, attempts))
  {
    if attempts != [] {
      var init := attempts[..|attempts| - 1];
      DeathPersists(arm, init);
      var mid := After(arm, init);
      var end := After(arm, attempts);
      assert Deltas(attempts[|attempts| - 1]) == (0.0, 1.0);
      LowMeanIsDead(mid);
      LowMeanIsDead(end);
    }
  }

  /** Two jumps in a row revive any reachable action; one need not. */
  lemma TwoJumpsRevive(before: seq<Attempt>, jump: Attempt)
    requires Jumps(jump)
    ensures Bounded(After(FRESH, before)) && Bounded(Updated(Updated(After(FRESH, before), jump), jump))
    ensures !Dead(Updated(Updated(After(FRESH, before), jump), jump))
  {
    BoundsHold(before);
    LowMeanIsDead(Updated(Updated(After(FRESH, before), jump), jump));
  }

  lemma OneJumpMayNotRevive(attempts: seq<Attempt>, jump: Attempt)
    requires AllFail(attempts) && |attempts| >= 55 && Jumps(jump)
    ensures Bounded(Updated(After(FRESH, attempts), jump)) && Dead(Updated(After(FRESH, attempts), jump))
  {
    FailuresInARow(FRESH, attempts);
    BoundsHold(attempts);
    TenthDecides(|attempts|, 9, 10, 55);
    var arm := After(FRESH, attempts);
    assert arm.alpha == 1.0 && arm.beta > 19.8;
    LowMeanIsDead(Updated(arm, jump));
  }
}
