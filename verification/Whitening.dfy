/** Whitening the advantages of a batch by the mean and variance of its valid tokens. */
module Whitening {
  import opened Arithmetic
  import opened Permutations
  import opened Wrappers
  import opened Gae

  const EPS := 0.00000001

  /** What is used of the inverse square root. */
  type Rsqrt = real -> real

  ghost predicate IsRsqrt(rsqrt: Rsqrt) {
    forall v: real | v > 0.0 :: rsqrt(v) > 0.0
  }

  type Rows = seq<seq<real>>

  predicate SameShape(a: Rows, b: Rows) {
    |a| == |b| && forall i | 0 <= i < |a| :: |a[i]| == |b[i]|
  }

  predicate AreMasks(masks: Rows) {
    forall i | 0 <= i < |masks| :: IsMask(masks[i])
  }

  // ----------------------------------------------------------- specification

  function Times(x: real, m: real): real {
    x * m
  }

  function Products(x: seq<real>, m: seq<real>): (p: seq<real>)
    requires |x| == |m|
    ensures |p| == |x|
  {
    seq(|x|, i requires 0 <= i < |x| => Times(x[i], m[i]))
  }

  /** How many tokens of a batch are valid. */
  function Count(masks: Rows): (n: real)
    requires AreMasks(masks)
    ensures n >= 0.0
  {
    if masks == [] then 0.0
    else
      SumNonNegative(masks[|masks| - 1]);
      Count(masks[..|masks| - 1]) + Sum(masks[|masks| - 1])
  }

  function MaskedSum(rows: Rows, masks: Rows): real
    requires SameShape(rows, masks)
  {
    if rows == [] then 0.0
    else MaskedSum(rows[..|rows| - 1], masks[..|rows| - 1]) + Sum(Products(rows[|rows| - 1], masks[|rows| - 1]))
  }

  /** The mean of `n` values with sum `s`, as the code divides. */
  function Mean(s: real, n: real): real
    requires n >= 0.0
  {
    s / (n + EPS)
  }

  function Unbiased(v: real, n: real): real
    requires n != 1.0
  {
    v * (n / (n - 1.0))
  }

  function MaskedMean(rows: Rows, masks: Rows): real
    requires SameShape(rows, masks) && AreMasks(masks)
  {
    Mean(MaskedSum(rows, masks), Count(masks))
  }

  function Square(x: real): real {
    x * x
  }

  function Deviation(row: seq<real>, mean: real): (d: seq<real>)
    ensures |d| == |row|
  {
    seq(|row|, i requires 0 <= i < |row| => Square(row[i] - mean))
  }

  function Deviations(rows: Rows, mean: real): (d: Rows)
    ensures SameShape(d, rows)
  {
    seq(|rows|, i requires 0 <= i < |rows| => Deviation(rows[i], mean))
  }

  /** The unbiased variance; it has no value for a single valid token, where the code divides by zero. */
  function MaskedVar(rows: Rows, masks: Rows): real
    requires SameShape(rows, masks) && AreMasks(masks) && Count(masks) != 1.0
  {
    Unbiased(MaskedMean(Deviations(rows, MaskedMean(rows, masks)), masks), Count(masks))
  }

  function Scaled(x: real, mean: real, slope: real): real {
    (x - mean) * slope
  }

  function WhitenedRow(row: seq<real>, mask: seq<real>, mean: real, slope: real): (w: seq<real>)
    requires |row| == |mask|
    ensures |w| == |row|
  {
    seq(|row|, i requires 0 <= i < |row| => if mask[i] == 0.0 then 0.0 else Scaled(row[i], mean, slope))
  }

  function WhitenedBy(rows: Rows, masks: Rows, mean: real, slope: real): (w: Rows)
    requires SameShape(rows, masks)
    ensures SameShape(w, rows)
  {
    seq(|rows|, i requires 0 <= i < |rows| => WhitenedRow(rows[i], masks[i], mean, slope))
  }

  /** Whitened, then zero at masked positions. */
  function Whitened(rows: Rows, masks: Rows, rsqrt: Rsqrt): (w: Rows)
    requires SameShape(rows, masks) && AreMasks(masks) && Count(masks) != 1.0
    ensures SameShape(w, rows)
  {
    WhitenedBy(rows, masks, MaskedMean(rows, masks), rsqrt(MaskedVar(rows, masks) + EPS))
  }

  // -------------------------------------------------------------- operations

  method SumOf(row: seq<real>) returns (s: real)
    ensures s == Sum(row)
  {
    s := 0.0;
    for i := 0 to |row|
      invariant s == Sum(row[..i])
    {
      SumLast(row[..i + 1]);
      assert row[..i + 1][..i] == row[..i];
      s := s + row[i];
    }
    assert row[..|row|] == row;
  }

  method MaskedTotal(rows: Rows, masks: Rows) returns (s: real, n: real)
    requires SameShape(rows, masks) && AreMasks(masks)
    ensures s == MaskedSum(rows, masks) && n == Count(masks)
  {
    s, n := 0.0, 0.0;
    for i := 0 to |rows|
      invariant s == MaskedSum(rows[..i], masks[..i]) && n == Count(masks[..i])
    {
      assert rows[..i + 1][..i] == rows[..i] && masks[..i + 1][..i] == masks[..i];
      var products := SumOf(Products(rows[i], masks[i]));
      var count := SumOf(masks[i]);
      s, n := s + products, n + count;
    }
    assert rows[..|rows|] == rows && masks[..|rows|] == masks;
  }

  /** `_reward_whiten` and the final masking; nothing for a batch with a single valid token. */
  method Whiten(rows: Rows, masks: Rows, rsqrt: Rsqrt) returns (w: Option<Rows>)
    requires SameShape(rows, masks) && AreMasks(masks)
    ensures w == if Count(masks) == 1.0 then None else Some(Whitened(rows, masks, rsqrt))
  {
    hide Mean, Unbiased, MaskedSum, Count, Deviations, WhitenedBy;
    var s, n := MaskedTotal(rows, masks);
    var mean := Mean(s, n);
    if n == 1.0 { return None; }
    var squares, _ := MaskedTotal(Deviations(rows, mean), masks);
    var variance := Unbiased(Mean(squares, n), n);
    w := Some(WhitenedBy(rows, masks, mean, rsqrt(variance + EPS)));
  }

  // ---------------------------------------------------------------- theorems

  /** Rows that agree where the masks are one. */
  predicate AgreeOnValid(rows: Rows, rows': Rows, masks: Rows)
    requires SameShape(rows, masks) && SameShape(rows', masks)
  {
    forall i, t | 0 <= i < |rows| && 0 <= t < |rows[i]| && masks[i][t] != 0.0 :: rows[i][t] == rows'[i][t]
  }

  lemma {:induction false} MaskedSumAgrees(rows: Rows, rows': Rows, masks: Rows)
    requires SameShape(rows, masks) && SameShape(rows', masks) && AgreeOnValid(rows, rows', masks)
    ensures MaskedSum(rows, masks) == MaskedSum(rows', masks)
    decreases |rows|
  {
    if rows != [] {
      var k := |rows| - 1;
      assert forall i | 0 <= i < k :: rows[..k][i] == rows[i] && rows'[..k][i] == rows'[i] && masks[..k][i] == masks[i];
      MaskedSumAgrees(rows[..k], rows'[..k], masks[..k]);
      assert Products(rows[k], masks[k]) == Products(rows'[k], masks[k]);
    }
  }

  /** What stands at masked positions never matters, before whitening or after. */
  lemma MaskedEntriesDoNotCount(rows: Rows, rows': Rows, masks: Rows, rsqrt: Rsqrt)
    requires SameShape(rows, masks) && SameShape(rows', masks) && AgreeOnValid(rows, rows', masks)
    requires AreMasks(masks) && Count(masks) != 1.0
    ensures Whitened(rows, masks, rsqrt) == Whitened(rows', masks, rsqrt)
  {
    hide MaskedSum, Count, Square, Mean, Unbiased, WhitenedBy;
    MaskedSumAgrees(rows, rows', masks);
    var mean := MaskedMean(rows, masks);
    MaskedSumAgrees(Deviations(rows, mean), Deviations(rows', mean), masks);
    WhitenedAgrees(rows, rows', masks, mean, rsqrt(MaskedVar(rows, masks) + EPS));
  }

  lemma WhitenedAgrees(rows: Rows, rows': Rows, masks: Rows, mean: real, slope: real)
    requires SameShape(rows, masks) && SameShape(rows', masks) && AgreeOnValid(rows, rows', masks)
    ensures WhitenedBy(rows, masks, mean, slope) == WhitenedBy(rows', masks, mean, slope)
  {
    forall i | 0 <= i < |rows|
      ensures WhitenedRow(rows[i], masks[i], mean, slope) == WhitenedRow(rows'[i], masks[i], mean, slope)
    {
      assert forall t | 0 <= t < |rows[i]| && masks[i][t] != 0.0 :: rows[i][t] == rows'[i][t];
    }
  }

  lemma {:induction false} MaskedSumNonNegative(rows: Rows, masks: Rows)
    requires SameShape(rows, masks) && AreMasks(masks) && forall i | 0 <= i < |rows| :: NonNegative(rows[i])
    ensures MaskedSum(rows, masks) >= 0.0
    decreases |rows|
  {
    if rows != [] {
      var k := |rows| - 1;
      MaskedSumNonNegative(rows[..k], masks[..k]);
      SumNonNegative(Products(rows[k], masks[k]));
    }
  }

  lemma SquareNonNegative(x: real)
    ensures Square(x) >= 0.0
  {}

  lemma QuotientNonNegative(a: real, b: real)
    requires a >= 0.0 && b > 0.0
    ensures a / b >= 0.0
  {}

  lemma ProductNonNegative(a: real, b: real)
    requires a >= 0.0 && b >= 0.0
    ensures a * b >= 0.0
  {}

  lemma VarianceNonNegative(rows: Rows, masks: Rows)
    requires SameShape(rows, masks) && AreMasks(masks) && Count(masks) > 1.0
    ensures MaskedVar(rows, masks) >= 0.0
  {
    hide MaskedSum, Count;
    var n, mean := Count(masks), MaskedMean(rows, masks);
    var d := Deviations(rows, mean);
    forall i, t | 0 <= i < |d| && 0 <= t < |d[i]|
      ensures d[i][t] >= 0.0
    {
      SquareNonNegative(rows[i][t] - mean);
    }
    MaskedSumNonNegative(d, masks);
    QuotientNonNegative(MaskedSum(d, masks), n + EPS);
    QuotientNonNegative(n, n - 1.0);
    ProductNonNegative(MaskedMean(d, masks), n / (n - 1.0));
  }

  lemma ScaledOrder(x: real, y: real, mean: real, slope: real)
    requires slope > 0.0
    ensures Scaled(x, mean, slope) < Scaled(y, mean, slope) <==> x < y
  {
    if x < y {
      SmallerProduct(x - mean, y - mean, slope);
    } else if y < x {
      SmallerProduct(y - mean, x - mean, slope);
    }
  }

  /** With at least two valid tokens, whitening keeps the strict order of advantages across the whole batch. */
  lemma WhiteningKeepsOrder(rows: Rows, masks: Rows, rsqrt: Rsqrt, i: nat, t: nat, j: nat, u: nat)
    requires IsRsqrt(rsqrt) && SameShape(rows, masks) && AreMasks(masks) && Count(masks) > 1.0
    requires i < |rows| && t < |rows[i]| && masks[i][t] == 1.0 && j < |rows| && u < |rows[j]| && masks[j][u] == 1.0
    ensures Whitened(rows, masks, rsqrt)[i][t] < Whitened(rows, masks, rsqrt)[j][u] <==> rows[i][t] < rows[j][u]
  {
    hide MaskedVar, MaskedMean, Scaled, Count;
    VarianceNonNegative(rows, masks);
    ScaledOrder(rows[i][t], rows[j][u], MaskedMean(rows, masks), rsqrt(MaskedVar(rows, masks) + EPS));
  }

  // --------------------------------------------------------------- a batch

  datatype Sample = Sample(reward: real, values: seq<real>, mask: seq<real>, kl: KlSetting)

  predicate IsSample(x: Sample) {
    x.mask != [] && IsMask(x.mask) && |x.values| == |x.mask| && (x.kl.Kl? ==> |x.kl.perToken| == |x.mask|)
  }

  predicate AreSamples(batch: seq<Sample>) {
    forall i | 0 <= i < |batch| :: IsSample(batch[i])
  }

  function Masks(batch: seq<Sample>): (masks: Rows)
    ensures |masks| == |batch|
  {
    seq(|batch|, i requires 0 <= i < |batch| => batch[i].mask)
  }

  /** The advantages before whitening. */
  function Plain(x: Sample, s: Setting): (row: seq<real>)
    requires IsSample(x)
    ensures |row| == |x.mask|
  {
    seq(|x.mask|, t requires 0 <= t < |x.mask| => if x.mask[t] == 0.0 then 0.0
      else Loop(TokenRewards(x.reward, x.mask, x.kl), x.values, x.mask, s.gamma, LambdaFor(s, x.mask), t))
  }

  function PlainRows(batch: seq<Sample>, s: Setting): (rows: Rows)
    requires AreSamples(batch)
    ensures SameShape(rows, Masks(batch))
  {
    seq(|batch|, i requires 0 <= i < |batch| => Plain(batch[i], s))
  }

  /** The returns of a sample. */
  predicate IsReturn(x: Sample, s: Setting, row: seq<real>)
    requires IsSample(x)
  {
    && |row| == |x.mask|
    && forall t: nat | t < |x.mask| ::
         row[t] == Loop(TokenRewards(x.reward, x.mask, x.kl), x.values, x.mask, s.gamma, ValueLambda(s), t) + x.values[t]
  }

  method ComputeSample(x: Sample, s: Setting) returns (row: seq<real>, returned: seq<real>)
    requires IsSample(x)
    ensures row == Plain(x, s) && IsReturn(x, s, returned)
  {
    hide Loop, TokenRewards, LambdaFor, ValueLambda;
    row, returned := ComputeAdvantage(x.reward, x.values, x.mask, x.kl, s);
  }

  /** The estimator on a batch. */
  method ComputeAdvantages(batch: seq<Sample>, s: Setting, normalize: bool, rsqrt: Rsqrt)
    returns (advantages: Option<Rows>, valueReturns: Rows)
    requires AreSamples(batch)
    ensures AreMasks(Masks(batch))
    ensures advantages ==
      if !normalize then Some(PlainRows(batch, s))
      else if Count(Masks(batch)) == 1.0 then None
      else Some(Whitened(PlainRows(batch, s), Masks(batch), rsqrt))
    ensures |valueReturns| == |batch| && forall i | 0 <= i < |batch| :: IsReturn(batch[i], s, valueReturns[i])
  {
    hide Plain, IsReturn, Count, Whitened;
    var rows: Rows := [];
    valueReturns := [];
    for i := 0 to |batch|
      invariant |rows| == |valueReturns| == i
      invariant forall j | 0 <= j < i :: rows[j] == Plain(batch[j], s)
      invariant forall j | 0 <= j < i :: IsReturn(batch[j], s, valueReturns[j])
    {
      var row, returned := ComputeSample(batch[i], s);
      rows, valueReturns := rows + [row], valueReturns + [returned];
    }
    assert rows == PlainRows(batch, s);
    advantages := Some(rows);
    if normalize {
      advantages := Whiten(rows, Masks(batch), rsqrt);
    }
  }
}
