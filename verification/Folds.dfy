/** Keeping original rows out of validation (evaluator/harness.py): fold indices computed on the synthetic
    rows are mapped back to the whole training set. */
module Folds {
  import opened Python

  datatype Split = Split(train: seq<nat>, valid: seq<nat>)

  predicate Distinct(xs: seq<nat>) {
    forall i, j :: 0 <= i < j < |xs| ==> xs[i] != xs[j]
  }

  /** The rows below n whose flag is `original`. */
  function RowsWhere(isOriginal: seq<bool>, original: bool, n: nat): (rows: seq<nat>)
    requires n <= |isOriginal|
    ensures forall i :: 0 <= i < |rows| ==> rows[i] < n && isOriginal[rows[i]] == original
    ensures forall r: nat :: r < n && isOriginal[r] == original ==> r in rows
    ensures forall i, j :: 0 <= i < j < |rows| ==> rows[i] < rows[j]
  {
    if n == 0 then []
    else if isOriginal[n - 1] == original then RowsWhere(isOriginal, original, n - 1) + [n - 1]
    else RowsWhere(isOriginal, original, n - 1)
  }

  function AllRows(n: nat): (rows: seq<nat>)
    ensures |rows| == n && forall i :: 0 <= i < n ==> rows[i] == i
  {
    seq(n, i => i)
  }

  /** _synthetic_indices: no is_original column means every row is synthetic. */
  function SyntheticRows(isOriginal: Option<seq<bool>>, n: nat): seq<nat>
    requires isOriginal.Some? ==> |isOriginal.value| == n
  {
    if isOriginal.None? then AllRows(n) else RowsWhere(isOriginal.value, false, n)
  }

  function OriginalRows(isOriginal: Option<seq<bool>>, n: nat): seq<nat>
    requires isOriginal.Some? ==> |isOriginal.value| == n
  {
    if isOriginal.None? then [] else RowsWhere(isOriginal.value, true, n)
  }

  predicate Within(xs: seq<nat>, n: nat) {
    forall x: nat :: x in xs ==> x < n
  }

  function Pick(rows: seq<nat>, at: seq<nat>): (picked: seq<nat>)
    requires Within(at, |rows|)
    ensures |picked| == |at|
    ensures forall i :: 0 <= i < |at| ==> at[i] in at && picked[i] == rows[at[i]]
  {
    seq(|at|, i requires 0 <= i < |at| => assert at[i] in at; rows[at[i]])
  }

  /** _synthetic_only_splits: original rows join every train side. */
  method SyntheticOnlySplits(local: seq<Split>, synth: seq<nat>, orig: seq<nat>) returns (splits: seq<Split>)
    requires forall k :: 0 <= k < |local| ==> IsLocal(local[k], |synth|)
    ensures IsMapped(splits, local, synth, orig)
  {
    splits := [];
    for k := 0 to |local|
      invariant |splits| == k
      invariant forall j :: 0 <= j < k ==> IsLocal(local[j], |synth|) && splits[j] == Mapped(local[j], synth, orig)
    {
      var s := MapSplit(local[k], synth, orig);
      splits := splits + [s];
    }
  }

  method MapSplit(s: Split, synth: seq<nat>, orig: seq<nat>) returns (m: Split)
    requires IsLocal(s, |synth|)
    ensures m == Mapped(s, synth, orig)
  {
    var train := if |orig| > 0 then Pick(synth, s.train) + orig else Pick(synth, s.train);
    assert |orig| == 0 ==> Pick(synth, s.train) + orig == Pick(synth, s.train);
    m := Split(train, Pick(synth, s.valid));
  }

  /** Both sides index the m synthetic rows. */
  predicate IsLocal(s: Split, m: nat) {
    Within(s.train, m) && Within(s.valid, m)
  }

  function Mapped(s: Split, synth: seq<nat>, orig: seq<nat>): Split
    requires IsLocal(s, |synth|)
  {
    Split(Pick(synth, s.train) + orig, Pick(synth, s.valid))
  }

  predicate IsMapped(splits: seq<Split>, local: seq<Split>, synth: seq<nat>, orig: seq<nat>) {
    |splits| == |local| &&
    forall k :: 0 <= k < |local| ==> IsLocal(local[k], |synth|) && splits[k] == Mapped(local[k], synth, orig)
  }

  /** Row r is validated in some split. */
  ghost predicate Validated(splits: seq<Split>, r: nat) {
    exists k :: 0 <= k < |splits| && r in splits[k].valid
  }

  ghost predicate ValidatedOnce(splits: seq<Split>) {
    forall j, k, r :: 0 <= j < k < |splits| && r in splits[j].valid ==> r !in splits[k].valid
  }

  /** train and valid share no row, repeat none, and together hold every row below n. */
  ghost predicate Partitions(s: Split, n: nat) {
    && Distinct(s.train) && Distinct(s.valid)
    && (forall x :: x in s.train ==> x !in s.valid)
    && (forall x: nat :: x < n <==> x in s.train || x in s.valid)
  }

  /** What a k-fold splitter gives on m rows: each split partitions them, and each row is validated in
      exactly one split. */
  ghost predicate KFold(local: seq<Split>, m: nat) {
    && (forall k :: 0 <= k < |local| ==> Partitions(local[k], m))
    && (forall x: nat :: x < m ==> Validated(local, x))
    && ValidatedOnce(local)
  }

  lemma IndicesFacts(isOriginal: Option<seq<bool>>, n: nat)
    requires isOriginal.Some? ==> |isOriginal.value| == n
    ensures var synth, orig := SyntheticRows(isOriginal, n), OriginalRows(isOriginal, n);
            && Distinct(synth) && Distinct(orig)
            && (forall r: nat :: r < n <==> r in synth || r in orig)
            && (forall r :: r in synth ==> r !in orig)
  {
    var synth, orig := SyntheticRows(isOriginal, n), OriginalRows(isOriginal, n);
    forall r: nat ensures r < n <==> r in synth || r in orig {
      if r in synth { var i :| 0 <= i < |synth| && synth[i] == r; }
      if r in orig { var i :| 0 <= i < |orig| && orig[i] == r; }
      if r < n {
        if isOriginal.None? {
          assert synth[r] == r;
        } else if isOriginal.value[r] {
          assert r in orig;
        } else {
          assert r in synth;
        }
      }
    }
    forall r | r in synth ensures r !in orig {
      var i :| 0 <= i < |synth| && synth[i] == r;
    }
  }

  lemma PickedFrom(rows: seq<nat>, at: seq<nat>, r: nat)
    requires Within(at, |rows|)
    ensures r in Pick(rows, at) <==> exists i :: i in at && rows[i] == r
  {
    if r in Pick(rows, at) {
      var k :| 0 <= k < |at| && Pick(rows, at)[k] == r;
      assert at[k] in at;
    }
    if i :| i in at && rows[i] == r {
      var k :| 0 <= k < |at| && at[k] == i;
      assert Pick(rows, at)[k] == r;
    }
  }

  /** One split maps to a split of all n rows whose train side has every original row and whose valid side
      has none. */
  lemma MappedPartitions(s: Split, isOriginal: Option<seq<bool>>, n: nat)
    requires isOriginal.Some? ==> |isOriginal.value| == n
    requires Partitions(s, |SyntheticRows(isOriginal, n)|)
    ensures var synth, orig := SyntheticRows(isOriginal, n), OriginalRows(isOriginal, n);
            && Within(s.train, |synth|) && Within(s.valid, |synth|)
            && Partitions(Mapped(s, synth, orig), n)
            && (forall r :: r in orig ==> r in Mapped(s, synth, orig).train && r !in Mapped(s, synth, orig).valid)
  {
    IndicesFacts(isOriginal, n);
    MappedFrom(s, SyntheticRows(isOriginal, n), OriginalRows(isOriginal, n), n);
  }

  lemma MappedFrom(s: Split, synth: seq<nat>, orig: seq<nat>, n: nat)
    requires Partitions(s, |synth|) && Distinct(synth) && Distinct(orig)
    requires forall r: nat :: r < n <==> r in synth || r in orig
    requires forall r :: r in synth ==> r !in orig
    ensures Within(s.train, |synth|) && Within(s.valid, |synth|)
    ensures Partitions(Mapped(s, synth, orig), n)
    ensures forall r :: r in orig ==> r in Mapped(s, synth, orig).train && r !in Mapped(s, synth, orig).valid
  {
    var train, valid := Pick(synth, s.train), Pick(synth, s.valid);
    DistinctPick(synth, s.train);
    DistinctPick(synth, s.valid);
    forall r | r in train ensures r in synth && r !in valid { TrainNotValid(s, synth, r); }
    forall r | r in valid ensures r in synth { PickedFrom(synth, s.valid, r); }
    forall r | r in synth ensures r in train || r in valid {
      var i: nat :| i < |synth| && synth[i] == r;
      assert i in s.train || i in s.valid;
      PickedFrom(synth, s.train, r);
      PickedFrom(synth, s.valid, r);
    }
    var m := Mapped(s, synth, orig);
    assert m.train == train + orig && m.valid == valid;
    forall i, j | 0 <= i < j < |m.train| ensures m.train[i] != m.train[j] {
      if i < |train| <= j { assert m.train[i] in train && m.train[j] in orig; }
    }
  }

  lemma TrainNotValid(s: Split, synth: seq<nat>, r: nat)
    requires Partitions(s, |synth|) && Distinct(synth)
    requires r in Pick(synth, s.train)
    ensures r in synth && r !in Pick(synth, s.valid)
  {
    PickedFrom(synth, s.train, r);
    PickedFrom(synth, s.valid, r);
    var i :| i in s.train && synth[i] == r;
    forall j | j in s.valid ensures synth[j] != r {
      assert j in s.valid && i !in s.valid;
    }
  }

  lemma DistinctPick(rows: seq<nat>, at: seq<nat>)
    requires Distinct(rows) && Distinct(at) && Within(at, |rows|)
    ensures Distinct(Pick(rows, at))
  {
    forall i, j | 0 <= i < j < |at| ensures Pick(rows, at)[i] != Pick(rows, at)[j] {
      assert at[i] != at[j] && at[i] in at && at[j] in at;
    }
  }

  /** The validation sides partition exactly the synthetic rows. */
  lemma ValidationPartitionsSynthetic(splits: seq<Split>, local: seq<Split>, isOriginal: Option<seq<bool>>, n: nat)
    requires isOriginal.Some? ==> |isOriginal.value| == n
    requires KFold(local, |SyntheticRows(isOriginal, n)|)
    requires IsMapped(splits, local, SyntheticRows(isOriginal, n), OriginalRows(isOriginal, n))
    ensures forall r :: r in SyntheticRows(isOriginal, n) <==> Validated(splits, r)
    ensures ValidatedOnce(splits)
  {
    IndicesFacts(isOriginal, n);
    var synth, orig := SyntheticRows(isOriginal, n), OriginalRows(isOriginal, n);
    forall r ensures r in synth <==> Validated(splits, r) {
      ValidatedExactly(splits, local, synth, orig, r);
    }
    forall j, k, r | 0 <= j < k < |splits| && r in splits[j].valid ensures r !in splits[k].valid {
      ValidOnce(local, synth, j, k, r);
    }
  }

  lemma ValidatedExactly(splits: seq<Split>, local: seq<Split>, synth: seq<nat>, orig: seq<nat>, r: nat)
    requires KFold(local, |synth|) && IsMapped(splits, local, synth, orig)
    ensures r in synth <==> Validated(splits, r)
  {
    if r in synth {
      var i: nat :| i < |synth| && synth[i] == r;
      assert Validated(local, i);
      var k :| 0 <= k < |local| && i in local[k].valid;
      PickedFrom(synth, local[k].valid, r);
      assert r in splits[k].valid;
    }
    if Validated(splits, r) {
      var k :| 0 <= k < |splits| && r in splits[k].valid;
      PickedFrom(synth, local[k].valid, r);
    }
  }

  lemma ValidOnce(local: seq<Split>, synth: seq<nat>, j: nat, k: nat, r: nat)
    requires KFold(local, |synth|) && Distinct(synth)
    requires j < k < |local| && IsLocal(local[j], |synth|) && IsLocal(local[k], |synth|)
    requires r in Pick(synth, local[j].valid)
    ensures r !in Pick(synth, local[k].valid)
  {
    PickedFrom(synth, local[j].valid, r);
    PickedFrom(synth, local[k].valid, r);
    var i :| i in local[j].valid && synth[i] == r;
    forall x | x in local[k].valid ensures synth[x] != r {
      assert i !in local[k].valid;
    }
  }

  // ---- out-of-fold predictions

  /** Fold i comes before the one that reaches the cap. */
  predicate WritesFold(maxFolds: Option<nat>, i: nat) {
    maxFolds.None? || i + 1 < maxFolds.value
  }

  /** How many folds get their predictions written: a cap on the folds stops the loop before the write of the
      fold that reaches it. */
  function WrittenFolds(nSplits: nat, maxFolds: Option<nat>): (k: nat)
    ensures k <= nSplits
    ensures forall i: nat :: i < nSplits ==> (WritesFold(maxFolds, i) <==> i < k)
  {
    if maxFolds.None? || maxFolds.value > nSplits then nSplits
    else if maxFolds.value == 0 || nSplits == 0 then 0
    else maxFolds.value - 1
  }

  /** The out-of-fold part of evaluate_pipeline: unless the metric is of the classification class, predictions are
      written at the validation rows of each fold. predict gives the fold's prediction for a row. */
  method CollectOof(collect: bool, classification: bool, splits: seq<Split>, maxFolds: Option<nat>, n: nat,
                    predict: (nat, nat) -> real)
    returns (oof: Option<array<Option<real>>>)
    requires forall k :: 0 <= k < |splits| ==> Within(splits[k].valid, n)
    requires ValidatedOnce(splits)
    ensures oof.Some? <==> collect && !classification
    ensures oof.Some? ==> fresh(oof.value) && oof.value.Length == n
    ensures oof.Some? ==> forall r :: 0 <= r < n ==>
              (oof.value[r].Some? <==> Validated(splits[..WrittenFolds(|splits|, maxFolds)], r))
    ensures oof.Some? ==> forall k, r :: 0 <= k < WrittenFolds(|splits|, maxFolds) && r in splits[k].valid ==>
              r < n && oof.value[r] == Some(predict(k, r))
  {
    if !collect || classification {
      return None;
    }
    var filled := new Option<real>[n](_ => None);
    oof := Some(filled);
    for k := 0 to |splits|
      invariant k <= WrittenFolds(|splits|, maxFolds)
      invariant filled.Length == n && fresh(filled)
      invariant forall r :: 0 <= r < n ==> (filled[r].Some? <==> Validated(splits[..k], r))
      invariant forall j, r :: 0 <= j < k && r in splits[j].valid ==> filled[r] == Some(predict(j, r))
    {
      if maxFolds.Some? && k + 1 >= maxFolds.value {
        return;
      }
      FillFold(filled, splits[k].valid, k, predict);
      forall r: nat ensures Validated(splits[..k + 1], r) <==> Validated(splits[..k], r) || r in splits[k].valid {
        OneMore(splits, k, r);
      }
    }
  }

  lemma OneMore(splits: seq<Split>, k: nat, r: nat)
    requires k < |splits|
    ensures Validated(splits[..k + 1], r) <==> Validated(splits[..k], r) || r in splits[k].valid
  {
    if Validated(splits[..k], r) {
      var j :| 0 <= j < k && r in splits[..k][j].valid;
      assert r in splits[..k + 1][j].valid;
    }
    if r in splits[k].valid { assert r in splits[..k + 1][k].valid; }
    if Validated(splits[..k + 1], r) {
      var j :| 0 <= j <= k && r in splits[..k + 1][j].valid;
      if j < k { assert r in splits[..k][j].valid; }
    }
  }

  method FillFold(oof: array<Option<real>>, valid: seq<nat>, k: nat, predict: (nat, nat) -> real)
    requires Within(valid, oof.Length)
    modifies oof
    ensures forall r :: 0 <= r < oof.Length ==> oof[r] == if r in valid then Some(predict(k, r)) else old(oof[r])
  {
    for i := 0 to |valid|
      invariant forall r :: 0 <= r < oof.Length ==> oof[r] == if r in valid[..i] then Some(predict(k, r)) else old(oof[r])
    {
      assert valid[i] in valid;
      oof[valid[i]] := Some(predict(k, valid[i]));
      assert valid[..i + 1] == valid[..i] + [valid[i]];
    }
    assert valid[..|valid|] == valid;
  }

  /** With the predictions of the first folds written, exactly the original rows' positions stay empty if and only
      if the remaining folds validate nothing: a run without a cap on the folds always does that, and a cap equal
      to the number of folds loses the last fold. */
  lemma OofFillsExactlySynthetic(splits: seq<Split>, local: seq<Split>, isOriginal: Option<seq<bool>>, n: nat,
                                 maxFolds: Option<nat>, oof: seq<Option<real>>)
    requires isOriginal.Some? ==> |isOriginal.value| == n
    requires KFold(local, |SyntheticRows(isOriginal, n)|)
    requires IsMapped(splits, local, SyntheticRows(isOriginal, n), OriginalRows(isOriginal, n))
    requires |oof| == n
    requires forall r :: 0 <= r < n ==> (oof[r].Some? <==> Validated(splits[..WrittenFolds(|splits|, maxFolds)], r))
    ensures (forall r :: 0 <= r < n ==> (oof[r].None? <==> isOriginal.Some? && isOriginal.value[r])) <==>
            forall k :: WrittenFolds(|splits|, maxFolds) <= k < |splits| ==> splits[k].valid == []
  {
    var written := WrittenFolds(|splits|, maxFolds);
    ValidationPartitionsSynthetic(splits, local, isOriginal, n);
    forall r: nat | r < n
      ensures (oof[r].None? <==> isOriginal.Some? && isOriginal.value[r]) <==> !Validated(splits[written..], r)
    {
      OofRow(splits, isOriginal, n, written, oof[r].Some?, r);
    }
    if k :| written <= k < |splits| && splits[k].valid != [] {
      var r := splits[k].valid[0];
      assert splits[written..][k - written] == splits[k];
      SplitValidated(splits, written, r);
      SyntheticBelow(isOriginal, n, r);
    }
  }

  /** A row of the out-of-fold array is as it should be exactly when no fold that is not written validates it. */
  lemma OofRow(splits: seq<Split>, isOriginal: Option<seq<bool>>, n: nat, written: nat, filled: bool, r: nat)
    requires (isOriginal.Some? ==> |isOriginal.value| == n) && r < n && written <= |splits|
    requires r in SyntheticRows(isOriginal, n) <==> Validated(splits, r)
    requires ValidatedOnce(splits) && (filled <==> Validated(splits[..written], r))
    ensures (!filled <==> isOriginal.Some? && isOriginal.value[r]) <==> !Validated(splits[written..], r)
  {
    SyntheticMeansNotOriginal(isOriginal, n, r);
    SplitValidated(splits, written, r);
    NotValidatedTwice(splits, written, r);
  }

  lemma SplitValidated(splits: seq<Split>, k: nat, r: nat)
    requires k <= |splits|
    ensures Validated(splits, r) <==> Validated(splits[..k], r) || Validated(splits[k..], r)
  {
    if j :| 0 <= j < |splits| && r in splits[j].valid {
      if j < k {
        assert r in splits[..k][j].valid;
      } else {
        assert r in splits[k..][j - k].valid;
      }
    }
    if j :| 0 <= j < |splits[k..]| && r in splits[k..][j].valid {
      assert r in splits[j + k].valid;
    }
  }

  /** A row validated in one of the first folds is validated in no later one. */
  lemma NotValidatedTwice(splits: seq<Split>, k: nat, r: nat)
    requires ValidatedOnce(splits) && k <= |splits|
    ensures Validated(splits[..k], r) ==> !Validated(splits[k..], r)
  {
    if Validated(splits[..k], r) {
      var i :| 0 <= i < |splits[..k]| && r in splits[..k][i].valid;
      forall j | 0 <= j < |splits[k..]| ensures r !in splits[k..][j].valid {
        assert splits[k..][j] == splits[k + j] && r in splits[i].valid;
      }
    }
  }

  lemma SyntheticBelow(isOriginal: Option<seq<bool>>, n: nat, r: nat)
    requires isOriginal.Some? ==> |isOriginal.value| == n
    requires r in SyntheticRows(isOriginal, n)
    ensures r < n
  {
    IndicesFacts(isOriginal, n);
  }

  lemma SyntheticMeansNotOriginal(isOriginal: Option<seq<bool>>, n: nat, r: nat)
    requires r < n && (isOriginal.Some? ==> |isOriginal.value| == n)
    ensures r in SyntheticRows(isOriginal, n) <==> !(isOriginal.Some? && isOriginal.value[r])
  {
    var synth := SyntheticRows(isOriginal, n);
    if isOriginal.None? {
      assert synth[r] == r;
    } else if r in synth {
      var i :| 0 <= i < |synth| && synth[i] == r;
    }
  }
}
