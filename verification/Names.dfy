/** Member names: the hooks a Patch class may define, and the fresh names under which the merge
    keeps the two versions of a composed hook (cycle/materialize.py). */
module Names {

  datatype Hook =
    | Preprocess
    | FeatureTransform
    | ParamCandidates
    | BuildModel
    | PostprocessPredictions
    | EnsembleSpec
    | ModelSpec

  function HookName(h: Hook): string {
    match h
    case Preprocess => "preprocess"
    case FeatureTransform => "feature_transform"
    case ParamCandidates => "param_candidates"
    case BuildModel => "build_model"
    case PostprocessPredictions => "postprocess_predictions"
    case EnsembleSpec => "ensemble_spec"
    case ModelSpec => "model_spec"
  }

  /** Number of arguments after self. */
  function Arity(h: Hook): nat {
    match h
    case Preprocess => 4
    case FeatureTransform => 4
    case ParamCandidates => 1
    case BuildModel => 2
    case PostprocessPredictions => 2
    case EnsembleSpec => 1
    case ModelSpec => 1
  }

  predicate Composable(h: Hook) {
    h.Preprocess? || h.FeatureTransform? || h.PostprocessPredictions? || h.ParamCandidates?
  }

  const HOOK_NAMES: set<string> :=
    {"preprocess", "feature_transform", "param_candidates", "build_model",
     "postprocess_predictions", "ensemble_spec", "model_spec"}

  predicate IsHookName(n: string) {
    n in HOOK_NAMES
  }

  lemma HookNameIsHookName(h: Hook)
    ensures IsHookName(HookName(h))
    ensures HookName(h)[0] != '_'
  {}

  lemma HookNameInjective(h: Hook, k: Hook)
    requires HookName(h) == HookName(k)
    ensures h == k
  {
    var a, b := HookName(h), HookName(k);
    assert |a| == |b| && a[0] == b[0];
  }

  lemma UnderscoreIsNoHook(n: string)
    requires |n| > 0 && n[0] == '_'
    ensures !IsHookName(n)
  {}

  // ---- fresh names

  function Digit(d: nat): char
    requires d < 10
  {
    "0123456789"[d]
  }

  function Decimal(n: nat): (s: string)
    ensures |s| > 0
    ensures forall i :: 0 <= i < |s| ==> '0' <= s[i] <= '9'
  {
    if n < 10 then [Digit(n)] else Decimal(n / 10) + [Digit(n % 10)]
  }

  lemma DigitInjective(c: nat, d: nat)
    requires c < 10 && d < 10 && Digit(c) == Digit(d)
    ensures c == d
  {}

  lemma LastDigit(a: nat)
    ensures var x := Decimal(a);
            x[|x| - 1] == Digit(a % 10) && (a >= 10 ==> Decimal(a / 10) == x[..|x| - 1]) && (a < 10 <==> |x| == 1)
  {}

  lemma {:induction false} DecimalInjective(a: nat, b: nat)
    requires Decimal(a) == Decimal(b)
    ensures a == b
    decreases a
  {
    LastDigit(a);
    LastDigit(b);
    DigitInjective(a % 10, b % 10);
    if a >= 10 {
      DecimalInjective(a / 10, b / 10);
    }
  }

  function DigitOf(c: char): nat
    requires '0' <= c <= '9'
  {
    c as nat - '0' as nat
  }

  /** The number that a string of digits writes, most significant digit first. */
  function Read(s: string): nat
    requires forall i :: 0 <= i < |s| ==> '0' <= s[i] <= '9'
  {
    if s == "" then 0 else 10 * Read(s[..|s| - 1]) + DigitOf(s[|s| - 1])
  }

  /** str(i): the digits write the number, without a leading zero. */
  lemma {:induction false} DecimalReadsBack(n: nat)
    ensures Read(Decimal(n)) == n
    ensures n > 0 ==> Decimal(n)[0] != '0'
    ensures n == 0 ==> Decimal(n) == "0"
  {
    var x := Decimal(n);
    LastDigit(n);
    DigitReads(n % 10);
    if n >= 10 {
      DecimalReadsBack(n / 10);
      assert x[..|x| - 1][0] == x[0];
    } else {
      assert x == [Digit(n)] && x[..0] == "";
    }
  }

  lemma DigitReads(d: nat)
    requires d < 10
    ensures '0' <= Digit(d) <= '9' && DigitOf(Digit(d)) == d
    ensures Digit(d) == '0' <==> d == 0
  {}

  function Suffixed(stem: string, i: nat): string {
    stem + "_" + Decimal(i)
  }

  lemma SuffixedInjective(stem: string, i: nat, j: nat)
    requires Suffixed(stem, i) == Suffixed(stem, j)
    ensures i == j
  {
    var x, y := Suffixed(stem, i), Suffixed(stem, j);
    assert Decimal(i) == x[|stem| + 1..] == y[|stem| + 1..] == Decimal(j);
    DecimalInjective(i, j);
  }

  /** The names that could still be taken at counter i or later. */
  ghost function TakenFrom(stem: string, i: nat, existing: set<string>): set<string> {
    set n | n in existing && exists j: nat :: i <= j && n == Suffixed(stem, j)
  }

  lemma TakenShrinks(stem: string, i: nat, existing: set<string>)
    requires Suffixed(stem, i) in existing
    ensures TakenFrom(stem, i + 1, existing) < TakenFrom(stem, i, existing)
  {
    var n := Suffixed(stem, i);
    assert n in TakenFrom(stem, i, existing);
    if n in TakenFrom(stem, i + 1, existing) {
      var j: nat :| i + 1 <= j && n == Suffixed(stem, j);
      SuffixedInjective(stem, i, j);
    }
  }

  /** The smallest counter at or after i whose name is free. */
  function FirstFree(stem: string, i: nat, existing: set<string>): (k: nat)
    ensures k >= i && Suffixed(stem, k) !in existing
    ensures forall j: nat :: i <= j < k ==> Suffixed(stem, j) in existing
    decreases TakenFrom(stem, i, existing)
  {
    if Suffixed(stem, i) in existing then
      TakenShrinks(stem, i, existing);
      FirstFree(stem, i + 1, existing)
    else i
  }

  function UniqueName(stem: string, existing: set<string>): (n: string)
    ensures n !in existing
    ensures stem !in existing ==> n == stem
    ensures stem in existing ==> exists i: nat :: i >= 2 && n == Suffixed(stem, i) && forall j: nat :: 2 <= j < i ==> Suffixed(stem, j) in existing
    ensures n == stem || exists i: nat :: i >= 2 && n == Suffixed(stem, i)
    ensures stem <= n
  {
    if stem !in existing then stem else Suffixed(stem, FirstFree(stem, 2, existing))
  }

  /** _unique_name: the counter loop ends, and finds the first free name. */
  method FindUniqueName(stem: string, existing: set<string>) returns (n: string)
    ensures n == UniqueName(stem, existing)
  {
    if stem !in existing {
      return stem;
    }
    var i: nat := 2;
    while Suffixed(stem, i) in existing
      invariant FirstFree(stem, i, existing) == FirstFree(stem, 2, existing)
      decreases TakenFrom(stem, i, existing)
    {
      TakenShrinks(stem, i, existing);
      i := i + 1;
    }
    n := Suffixed(stem, i);
  }

  function PrevStem(h: Hook): string { "_" + HookName(h) + "_prev" }

  function NewStem(h: Hook): string { "_" + HookName(h) + "_new" }

  /** A name the merge may generate: a stem of a composable hook, bare or with a counter. */
  ghost predicate Generated(n: string) {
    exists h: Hook :: Composable(h) && (FromStem(PrevStem(h), n) || FromStem(NewStem(h), n))
  }

  ghost predicate FromStem(stem: string, n: string) {
    n == stem || exists i: nat :: i >= 2 && n == Suffixed(stem, i)
  }

  /** _COMPOSED_CANDIDATES_HELPER: _param_candidates_prev or _new, optionally with a decimal counter. */
  predicate IsCandidatesHelper(n: string) {
    MatchesStem("_param_candidates_prev", n) || MatchesStem("_param_candidates_new", n)
  }

  predicate MatchesStem(stem: string, n: string) {
    n == stem ||
    (|n| > |stem| + 1 && n[..|stem| + 1] == stem + "_" &&
     forall i :: |stem| + 1 <= i < |n| ==> '0' <= n[i] <= '9')
  }

  /** Decimal digits, at least one. */
  predicate IsNumber(s: string) {
    s != "" && forall i :: 0 <= i < |s| ==> '0' <= s[i] <= '9'
  }

  /** The pattern takes exactly the two stems, bare or followed by an underscore and a number. */
  lemma CandidatesHelperExactly(n: string)
    ensures IsCandidatesHelper(n) <==>
            || n == "_param_candidates_prev" || n == "_param_candidates_new"
            || exists digits :: IsNumber(digits) && (n == "_param_candidates_prev" + "_" + digits || n == "_param_candidates_new" + "_" + digits)
  {
    StemExactly("_param_candidates_prev", n);
    StemExactly("_param_candidates_new", n);
  }

  lemma StemExactly(stem: string, n: string)
    ensures MatchesStem(stem, n) <==> n == stem || exists digits :: IsNumber(digits) && n == stem + "_" + digits
  {
    var k := |stem| + 1;
    if |n| > k && n[..k] == stem + "_" && IsNumber(n[k..]) {
      assert n == stem + "_" + n[k..];
    }
    if MatchesStem(stem, n) && n != stem { assert IsNumber(n[k..]); }
    if digits :| IsNumber(digits) && n == stem + "_" + digits {
      assert n[..k] == stem + "_" && n[k..] == digits;
      forall i | k <= i < |n| ensures '0' <= n[i] <= '9' { assert n[i] == digits[i - k]; }
    }
  }

  /** The pattern recognises every helper the merge generates for param_candidates. */
  lemma GeneratedCandidatesMatch(existing: set<string>)
    ensures IsCandidatesHelper(UniqueName(PrevStem(ParamCandidates), existing))
    ensures IsCandidatesHelper(UniqueName(NewStem(ParamCandidates), existing))
  {
    assert PrevStem(ParamCandidates) == "_param_candidates_prev";
    assert NewStem(ParamCandidates) == "_param_candidates_new";
    StemMatches("_param_candidates_prev", existing);
    StemMatches("_param_candidates_new", existing);
  }

  lemma StemMatches(stem: string, existing: set<string>)
    ensures MatchesStem(stem, UniqueName(stem, existing))
  {
    var n := UniqueName(stem, existing);
    if n != stem {
      var i: nat :| i >= 2 && n == Suffixed(stem, i);
      assert n[..|stem| + 1] == stem + "_";
      assert forall k :: |stem| + 1 <= k < |n| ==> n[k] == Decimal(i)[k - |stem| - 1];
    }
  }
}
