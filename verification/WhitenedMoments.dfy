/** What whitening makes of a batch: over its valid tokens, laid out in one row, the result has mean zero and unit
    variance, up to the small constant the code adds to its divisors. */
module WhitenedMoments {
  import opened Arithmetic
  import opened Permutations
  import opened Gae
  import opened Whitening

  /** The valid tokens of a batch. */
  function ValidTokens(rows: Rows, masks: Rows): (tokens: seq<real>)
    requires SameShape(rows, masks)
  {
    if rows == [] then []
    else
      var k := |rows| - 1;
      ValidTokens(rows[..k], masks[..k]) + Compact(rows[k], masks[k])
  }

  function Map(f: real -> real, s: seq<real>): (r: seq<real>)
    ensures |r| == |s|
  {
    seq(|s|, i requires 0 <= i < |s| => f(s[i]))
  }

  lemma {:induction false} CompactMap(f: real -> real, s: seq<real>, t: seq<real>, mask: seq<real>)
    requires |s| == |t| == |mask| && forall i | 0 <= i < |s| && mask[i] == 1.0 :: t[i] == f(s[i])
    ensures Compact(t, mask) == Map(f, Compact(s, mask))
    decreases |s|
  {
    if s != [] {
      CompactMap(f, s[1..], t[1..], mask[1..]);
      CompactStep(s, mask);
      CompactStep(t, mask);
    }
  }

  lemma MapConcat(f: real -> real, a: seq<real>, b: seq<real>)
    ensures Map(f, a + b) == Map(f, a) + Map(f, b)
  {}

  lemma {:induction false} TokensMap(f: real -> real, rows: Rows, rows': Rows, masks: Rows)
    requires SameShape(rows, masks) && SameShape(rows', masks)
    requires forall i, t | 0 <= i < |rows| && 0 <= t < |rows[i]| && masks[i][t] == 1.0 :: rows'[i][t] == f(rows[i][t])
    ensures ValidTokens(rows', masks) == Map(f, ValidTokens(rows, masks))
    decreases |rows|
  {
    if rows != [] {
      var k := |rows| - 1;
      assert forall i | 0 <= i < k :: rows[..k][i] == rows[i] && rows'[..k][i] == rows'[i] && masks[..k][i] == masks[i];
      TokensMap(f, rows[..k], rows'[..k], masks[..k]);
      assert forall t | 0 <= t < |rows[k]| && masks[k][t] == 1.0 :: rows'[k][t] == f(rows[k][t]);
      CompactMap(f, rows[k], rows'[k], masks[k]);
      MapConcat(f, ValidTokens(rows[..k], masks[..k]), Compact(rows[k], masks[k]));
    }
  }

  lemma {:induction false} CompactSum(s: seq<real>, mask: seq<real>)
    requires |s| == |mask| && IsMask(mask)
    ensures Sum(Products(s, mask)) == Sum(Compact(s, mask)) && Sum(mask) == |Compact(s, mask)| as real
    decreases |s|
  {
    if s != [] {
      CompactSum(s[1..], mask[1..]);
      CompactStep(s, mask);
      assert Products(s, mask)[1..] == Products(s[1..], mask[1..]);
    }
  }

  /** The masked sum and the count are those of the valid tokens. */
  lemma {:induction false} TotalsAreOfTokens(rows: Rows, masks: Rows)
    requires SameShape(rows, masks) && AreMasks(masks)
    ensures MaskedSum(rows, masks) == Sum(ValidTokens(rows, masks))
    ensures Count(masks) == |ValidTokens(rows, masks)| as real
    decreases |rows|
  {
    if rows != [] {
      var k := |rows| - 1;
      assert forall i | 0 <= i < k :: rows[..k][i] == rows[i] && masks[..k][i] == masks[i];
      TotalsAreOfTokens(rows[..k], masks[..k]);
      CompactSum(rows[k], masks[k]);
      SumConcat(ValidTokens(rows[..k], masks[..k]), Compact(rows[k], masks[k]));
    }
  }

  function ScaledTokens(s: seq<real>, mean: real, slope: real): (r: seq<real>)
    ensures |r| == |s|
  {
    Map(x => Scaled(x, mean, slope), s)
  }

  lemma {:induction false} SumOfScaled(s: seq<real>, mean: real, slope: real)
    ensures Sum(ScaledTokens(s, mean, slope)) == slope * (Sum(s) - mean * |s| as real)
  {
    if s != [] {
      SumOfScaled(s[1..], mean, slope);
      ScaledHead(s, mean, slope);
      hide ScaledTokens;
      ScaledStep(s[0], Sum(s[1..]), |s[1..]| as real, mean, slope);
    }
  }

  lemma ScaledStep(x: real, rest: real, n: real, mean: real, slope: real)
    ensures (x - mean) * slope + slope * (rest - mean * n) == slope * (x + rest - mean * (n + 1.0))
  {}

  lemma DeviationHead(s: seq<real>, mean: real)
    requires s != []
    ensures Sum(Deviation(s, mean)) == Square(s[0] - mean) + Sum(Deviation(s[1..], mean))
  {
    hide Square;
    assert Deviation(s, mean)[1..] == Deviation(s[1..], mean);
  }

  lemma ScaledHead(s: seq<real>, mean: real, slope: real)
    requires s != []
    ensures var t := ScaledTokens(s, mean, slope);
      t != [] && t[0] == (s[0] - mean) * slope && t[1..] == ScaledTokens(s[1..], mean, slope)
  {}

  lemma {:induction false} SquaresOfScaled(s: seq<real>, mean: real, slope: real)
    ensures Sum(Deviation(ScaledTokens(s, mean, slope), 0.0)) == Square(slope) * Sum(Deviation(s, mean))
  {
    if s == [] {
      assert Deviation(ScaledTokens(s, mean, slope), 0.0) == Deviation(s, mean) == [];
    } else {
      hide *;
      SquaresOfScaled(s[1..], mean, slope);
      ScaledHead(s, mean, slope);
      DeviationHead(ScaledTokens(s, mean, slope), 0.0);
      DeviationHead(s, mean);
      SquareStep(s[0] - mean, slope, Sum(Deviation(s[1..], mean)));
    }
  }

  lemma SquareStep(d: real, slope: real, rest: real)
    ensures Square(d * slope - 0.0) + Square(slope) * rest == Square(slope) * (Square(d) + rest)
  {
    assert (d * slope) * (d * slope) == (slope * slope) * (d * d);
  }

  /** Mean and variance, by the valid tokens. */
  lemma MomentsAreOfTokens(rows: Rows, masks: Rows)
    requires SameShape(rows, masks) && AreMasks(masks) && Count(masks) != 1.0
    ensures var x, mean := ValidTokens(rows, masks), MaskedMean(rows, masks);
      var n := |x| as real;
      && n == Count(masks) && mean * (n + EPS) == Sum(x)
      && (n - 1.0) * MaskedVar(rows, masks) * (n + EPS) == n * Sum(Deviation(x, mean))
  {
    hide MaskedSum, Count, ValidTokens, Sum, Mean, Unbiased, Deviation, Deviations;
    var x, mean := ValidTokens(rows, masks), MaskedMean(rows, masks);
    TotalsAreOfTokens(rows, masks);
    MeanIsOfTokens(rows, masks);
    DeviationsOfTokens(rows, masks, mean);
    Moments(Sum(x), Sum(Deviation(x, mean)), Count(masks));
  }

  lemma DeviationsOfTokens(rows: Rows, masks: Rows, mean: real)
    requires SameShape(rows, masks) && AreMasks(masks)
    ensures MaskedSum(Deviations(rows, mean), masks) == Sum(Deviation(ValidTokens(rows, masks), mean))
  {
    var x, d := ValidTokens(rows, masks), Deviations(rows, mean);
    TokensMap(y => Square(y - mean), rows, d, masks);
    assert Map(y => Square(y - mean), x) == Deviation(x, mean);
    TotalsAreOfTokens(d, masks);
  }

  lemma Moments(s: real, q: real, n: real)
    requires n >= 0.0 && n != 1.0
    ensures Mean(s, n) * (n + EPS) == s
    ensures (n - 1.0) * Unbiased(Mean(q, n), n) * (n + EPS) == n * q
  {
    UnbiasedTimes(Mean(q, n), n);
    MeanTimes(q, n);
    MeanTimes(s, n);
    hide Mean, Unbiased;
    Regroup(n, Unbiased(Mean(q, n), n), Mean(q, n), q);
  }

  lemma MeanTimes(s: real, n: real)
    requires n >= 0.0
    ensures Mean(s, n) * (n + EPS) == s
  {}

  lemma UnbiasedTimes(v: real, n: real)
    requires n != 1.0
    ensures (n - 1.0) * Unbiased(v, n) == n * v
  {
    var q := n / (n - 1.0);
    assert q * (n - 1.0) == n;
    assert (n - 1.0) * (v * q) == v * (q * (n - 1.0));
  }

  lemma Regroup(n: real, variance: real, m: real, sum: real)
    requires (n - 1.0) * variance == n * m && m * (n + EPS) == sum
    ensures (n - 1.0) * variance * (n + EPS) == n * sum
  {
    assert (n * m) * (n + EPS) == n * (m * (n + EPS));
  }

  lemma MeanIsOfTokens(rows: Rows, masks: Rows)
    requires SameShape(rows, masks) && AreMasks(masks)
    ensures MaskedMean(rows, masks) * (|ValidTokens(rows, masks)| as real + EPS) == Sum(ValidTokens(rows, masks))
  {
    hide MaskedSum, Count, ValidTokens, Sum, Mean;
    TotalsAreOfTokens(rows, masks);
    MeanTimes(Sum(ValidTokens(rows, masks)), Count(masks));
  }

  /** What the whitened batch has at its valid tokens. */
  lemma WhitenedTokens(rows: Rows, masks: Rows, rsqrt: Rsqrt)
    requires SameShape(rows, masks) && AreMasks(masks) && Count(masks) != 1.0
    ensures var mean, slope := MaskedMean(rows, masks), rsqrt(MaskedVar(rows, masks) + EPS);
      ValidTokens(Whitened(rows, masks, rsqrt), masks) == ScaledTokens(ValidTokens(rows, masks), mean, slope)
  {
    hide MaskedMean, MaskedVar, Count;
    var mean, slope := MaskedMean(rows, masks), rsqrt(MaskedVar(rows, masks) + EPS);
    TokensMap(x => Scaled(x, mean, slope), rows, Whitened(rows, masks, rsqrt), masks);
  }

  /** The result is centred: its valid tokens add up to zero, but for the constant in the mean's divisor. */
  lemma WhitenedIsCentred(rows: Rows, masks: Rows, rsqrt: Rsqrt)
    requires SameShape(rows, masks) && AreMasks(masks) && Count(masks) != 1.0
    ensures Sum(ValidTokens(Whitened(rows, masks, rsqrt), masks))
         == rsqrt(MaskedVar(rows, masks) + EPS) * (EPS * MaskedMean(rows, masks))
  {
    hide *;
    var x, mean, slope := ValidTokens(rows, masks), MaskedMean(rows, masks), rsqrt(MaskedVar(rows, masks) + EPS);
    WhitenedTokens(rows, masks, rsqrt);
    MeanIsOfTokens(rows, masks);
    CentredSum(x, mean, slope);
  }

  /** Tokens that are not valid have no advantage afterwards. */
  lemma ZeroWhereMasked(rows: Rows, masks: Rows, rsqrt: Rsqrt)
    requires SameShape(rows, masks) && AreMasks(masks) && Count(masks) != 1.0
    ensures forall i, t | 0 <= i < |rows| && 0 <= t < |rows[i]| && masks[i][t] == 0.0 ::
      Whitened(rows, masks, rsqrt)[i][t] == 0.0
  {
    hide MaskedMean, MaskedVar, Count;
  }

  lemma CentredSum(s: seq<real>, mean: real, slope: real)
    requires mean * (|s| as real + EPS) == Sum(s)
    ensures Sum(ScaledTokens(s, mean, slope)) == slope * (EPS * mean)
  {
    SumOfScaled(s, mean, slope);
    hide *;
    Centre(Sum(s), mean, |s| as real, slope);
  }

  lemma Centre(sum: real, mean: real, n: real, slope: real)
    requires mean * (n + EPS) == sum
    ensures slope * (sum - mean * n) == slope * (EPS * mean)
  {
    assert sum - mean * n == EPS * mean;
  }

  /** The inverse square root itself. */
  ghost predicate IsExactRsqrt(rsqrt: Rsqrt) {
    forall v: real | v > 0.0 :: rsqrt(v) > 0.0 && Square(rsqrt(v)) * v == 1.0
  }

  /** The result is scaled: its squares are the squared deviations from the mean, times the slope's square, and with
      the true inverse square root its unbiased variance is one, but for the constants. */
  lemma WhitenedHasUnitVariance(rows: Rows, masks: Rows, rsqrt: Rsqrt)
    requires SameShape(rows, masks) && AreMasks(masks) && Count(masks) > 1.0
    ensures var x, w := ValidTokens(rows, masks), ValidTokens(Whitened(rows, masks, rsqrt), masks);
      var n, variance := |x| as real, MaskedVar(rows, masks);
      && |w| == |x| && variance >= 0.0
      && Sum(Deviation(w, 0.0)) == Square(rsqrt(variance + EPS)) * Sum(Deviation(x, MaskedMean(rows, masks)))
      && (IsExactRsqrt(rsqrt) ==>
            n * Sum(Deviation(w, 0.0)) * (variance + EPS) == (n - 1.0) * (n + EPS) * variance)
  {
    hide *;
    var x, mean, variance := ValidTokens(rows, masks), MaskedMean(rows, masks), MaskedVar(rows, masks);
    var slope := rsqrt(variance + EPS);
    VarianceNonNegative(rows, masks);
    WhitenedTokens(rows, masks, rsqrt);
    MomentsAreOfTokens(rows, masks);
    SquaresOfScaled(x, mean, slope);
    if IsExactRsqrt(rsqrt) {
      ExactSlope(rsqrt, variance);
      UnitVariance(|x| as real, variance, Square(slope), Sum(Deviation(x, mean)));
    }
  }

  lemma ExactSlope(rsqrt: Rsqrt, variance: real)
    requires IsExactRsqrt(rsqrt) && variance >= 0.0
    ensures Square(rsqrt(variance + EPS)) * (variance + EPS) == 1.0
  {}

  lemma UnitVariance(n: real, variance: real, square: real, sum: real)
    requires square * (variance + EPS) == 1.0 && (n - 1.0) * variance * (n + EPS) == n * sum
    ensures n * (square * sum) * (variance + EPS) == (n - 1.0) * (n + EPS) * variance
  {
    assert n * (square * sum) * (variance + EPS) == (n * sum) * (square * (variance + EPS));
    assert (n - 1.0) * variance * (n + EPS) == (n - 1.0) * (n + EPS) * variance;
  }
}
