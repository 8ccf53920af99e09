/** Laws of the estimator: what a KL penalty in the rewards does to tokens and returns, what lambda mixes, and
    which pass each lambda governs. */
module EstimatorLaws {
  import opened Arithmetic
  import opened Permutations
  import opened Gae

  /** A positive coefficient takes its share of the divergence away from every valid token, a masked token has
      no reward, and no other coefficient does anything. */
  lemma PenaltyAtTokens(reward: real, mask: seq<real>, coef: real, kl: seq<real>, t: nat)
    requires IsMask(mask) && |kl| == |mask| && t < |mask|
    ensures var tokens, plain := TokenRewards(reward, mask, Kl(coef, kl)), TokenRewards(reward, mask, NoKl);
      && (coef <= 0.0 ==> tokens == plain)
      && (coef > 0.0 && mask[t] == 1.0 ==> tokens[t] + coef * kl[t] == plain[t])
      && (mask[t] == 0.0 ==> tokens[t] == 0.0)
  {
    hide IsLastValid;
    if coef <= 0.0 {
      assert TokenRewards(reward, mask, Kl(coef, kl)) == TokenRewards(reward, mask, NoKl);
    }
  }

  /** `a` is `b` less `c` times `d`. */
  predicate IsLess(a: real, c: real, d: real, b: real) {
    a + c * d == b
  }

  /** The same, row by row where the mask is one. */
  predicate Less(a: seq<real>, b: seq<real>, c: real, d: seq<real>, mask: seq<real>) {
    |a| == |b| == |d| == |mask| && forall t | 0 <= t < |mask| && mask[t] == 1.0 :: IsLess(a[t], c, d[t], b[t])
  }

  /** And so for discounted rows. */
  predicate Balances(gamma: real, a: seq<real>, b: seq<real>, c: real, d: seq<real>) {
    IsLess(DiscountedSum(gamma, a), c, DiscountedSum(gamma, d), DiscountedSum(gamma, b))
  }

  lemma {:induction false} DiscountedLess(gamma: real, a: seq<real>, b: seq<real>, c: real, d: seq<real>, mask: seq<real>)
    requires Less(a, b, c, d, mask)
    ensures Balances(gamma, Compact(a, mask), Compact(b, mask), c, Compact(d, mask))
    decreases |mask|
  {
    if mask == [] {
      assert Compact(a, mask) == Compact(b, mask) == Compact(d, mask) == [];
    } else {
      hide *;
      LessShifts(a, b, c, d, mask);
      DiscountedLess(gamma, a[1..], b[1..], c, d[1..], mask[1..]);
      CompactStep(a, mask);
      CompactStep(b, mask);
      CompactStep(d, mask);
      if mask[0] == 1.0 {
        HeadBalances(gamma, a[0], Compact(a[1..], mask[1..]), b[0], Compact(b[1..], mask[1..]),
                     c, d[0], Compact(d[1..], mask[1..]));
      }
    }
  }

  lemma HeadBalances(gamma: real, a: real, aTail: seq<real>, b: real, bTail: seq<real>, c: real, d: real, dTail: seq<real>)
    requires IsLess(a, c, d, b) && Balances(gamma, aTail, bTail, c, dTail)
    ensures Balances(gamma, [a] + aTail, [b] + bTail, c, [d] + dTail)
  {
    DiscountedSumHorner(gamma, a, aTail);
    DiscountedSumHorner(gamma, b, bTail);
    DiscountedSumHorner(gamma, d, dTail);
    hide DiscountedSum, Accumulate, IsLess;
    Combine(gamma, c, a, d, b, DiscountedSum(gamma, aTail), DiscountedSum(gamma, dTail), DiscountedSum(gamma, bTail));
  }

  lemma LessShifts(a: seq<real>, b: seq<real>, c: real, d: seq<real>, mask: seq<real>)
    requires Less(a, b, c, d, mask) && mask != []
    ensures Less(a[1..], b[1..], c, d[1..], mask[1..])
    ensures |a| == |b| == |d| == |mask| && (mask[0] == 1.0 ==> IsLess(a[0], c, d[0], b[0]))
  {
    hide IsLess;
  }

  lemma Combine(gamma: real, c: real, a: real, d: real, b: real, x: real, y: real, z: real)
    requires IsLess(a, c, d, b) && IsLess(x, c, y, z)
    ensures IsLess(Accumulate(a, gamma, x), c, Accumulate(d, gamma, y), Accumulate(b, gamma, z))
  {
    assert gamma * z == gamma * x + gamma * (c * y);
    assert c * (d + gamma * y) == c * d + c * (gamma * y);
    assert c * (gamma * y) == gamma * (c * y);
  }

  lemma PenalisedLess(reward: real, mask: seq<real>, coef: real, kl: seq<real>)
    requires IsMask(mask) && |kl| == |mask| && coef > 0.0
    ensures Less(TokenRewards(reward, mask, Kl(coef, kl)), TokenRewards(reward, mask, NoKl), coef, kl, mask)
  {
    var tokens, plain := TokenRewards(reward, mask, Kl(coef, kl)), TokenRewards(reward, mask, NoKl);
    forall u: nat | u < |mask| && mask[u] == 1.0
      ensures IsLess(tokens[u], coef, kl[u], plain[u])
    {
      PenaltyAtTokens(reward, mask, coef, kl, u);
    }
  }

  lemma LessFrom(a: seq<real>, b: seq<real>, c: real, d: seq<real>, mask: seq<real>, t: nat)
    requires Less(a, b, c, d, mask) && t <= |mask|
    ensures |a| == |b| == |d| == |mask| && Less(a[t..], b[t..], c, d[t..], mask[t..])
  {
    hide IsLess;
  }

  /** With lambda = 1 the return at a valid token is the discounted terminal reward, less the coefficient times
      the discounted divergence over it and the later valid tokens. */
  lemma ReturnPaysForDivergence(values: seq<real>, mask: seq<real>, gamma: real, reward: real, coef: real, kl: seq<real>, t: nat)
    requires |values| == |mask| == |kl| && IsMask(mask) && t < |mask| && mask[t] == 1.0 && coef > 0.0
    ensures Loop(TokenRewards(reward, mask, Kl(coef, kl)), values, mask, gamma, 1.0, t) + values[t]
         == Power(gamma, ValidAfter(mask, t)) * reward - coef * DiscountedSum(gamma, Compact(kl[t..], mask[t..]))
  {
    hide *;
    var tokens, plain := TokenRewards(reward, mask, Kl(coef, kl)), TokenRewards(reward, mask, NoKl);
    PenalisedLess(reward, mask, coef, kl);
    LessFrom(tokens, plain, coef, kl, mask, t);
    DiscountedLess(gamma, tokens[t..], plain[t..], coef, kl[t..], mask[t..]);
    ReturnIsDiscountedRewards(tokens, values, mask, gamma, t);
    ReturnIsDiscountedRewards(plain, values, mask, gamma, t);
    ReturnIsDiscountedTerminal(values, mask, gamma, reward, t);
    BalanceMeans(gamma, Compact(tokens[t..], mask[t..]), Compact(plain[t..], mask[t..]), coef, Compact(kl[t..], mask[t..]));
  }

  lemma BalanceMeans(gamma: real, a: seq<real>, b: seq<real>, c: real, d: seq<real>)
    requires Balances(gamma, a, b, c, d)
    ensures DiscountedSum(gamma, a) == DiscountedSum(gamma, b) - c * DiscountedSum(gamma, d)
  {
    hide DiscountedSum;
  }

  lemma ScaledAtMost(c: real, x: real, y: real)
    requires c >= 0.0 && x <= y
    ensures c * x <= c * y
  {
    if c > 0.0 && x < y {
      SmallerProduct(x, y, c);
    }
  }

  predicate Below(a: seq<real>, b: seq<real>) {
    |a| == |b| && forall i | 0 <= i < |a| :: a[i] <= b[i]
  }

  lemma {:induction false} DiscountedMonotone(x: real, a: seq<real>, b: seq<real>)
    requires x >= 0.0 && Below(a, b)
    ensures DiscountedSum(x, a) <= DiscountedSum(x, b)
    decreases |a|
  {
    if a != [] {
      var n := |a| - 1;
      DiscountedMonotone(x, a[..n], b[..n]);
      PowerNonNegative(x, n);
      ScaledAtMost(Power(x, n), a[n], b[n]);
    }
  }

  lemma {:induction false} PowerNonNegative(x: real, n: nat)
    requires x >= 0.0
    ensures Power(x, n) >= 0.0
  {
    if n > 0 {
      PowerNonNegative(x, n - 1);
    }
  }

  lemma {:induction false} CompactBelow(a: seq<real>, b: seq<real>, mask: seq<real>)
    requires |a| == |b| == |mask| && forall t | 0 <= t < |mask| && mask[t] == 1.0 :: a[t] <= b[t]
    ensures Below(Compact(a, mask), Compact(b, mask))
    decreases |mask|
  {
    if mask != [] {
      CompactBelow(a[1..], b[1..], mask[1..]);
      CompactStep(a, mask);
      CompactStep(b, mask);
    }
  }

  /** Advantages never fall as rewards at valid tokens rise. */
  lemma AdvantageMonotone(rewards: seq<real>, rewards': seq<real>, values: seq<real>, mask: seq<real>,
                          gamma: real, lam: real, t: nat)
    requires |rewards| == |rewards'| == |values| == |mask| && IsMask(mask) && t <= |mask| && gamma * lam >= 0.0
    requires forall u | t <= u < |mask| && mask[u] == 1.0 :: rewards[u] <= rewards'[u]
    ensures Loop(rewards, values, mask, gamma, lam, t) <= Loop(rewards', values, mask, gamma, lam, t)
  {
    CarryIsTextbook(rewards[t..], values[t..], mask[t..], gamma, lam);
    CarryIsTextbook(rewards'[t..], values[t..], mask[t..], gamma, lam);
    CompactBelow(rewards[t..], rewards'[t..], mask[t..]);
    var r, r', v := Compact(rewards[t..], mask[t..]), Compact(rewards'[t..], mask[t..]), Compact(values[t..], mask[t..]);
    hide DiscountedSum, Compact, CarryAfter;
    DiscountedMonotone(gamma * lam, Deltas(r, v, gamma), Deltas(r', v, gamma));
  }

  lemma PenaltyOrder(reward: real, mask: seq<real>, coef: real, kl: seq<real>, kl': seq<real>, u: nat)
    requires IsMask(mask) && |kl| == |kl'| == |mask| && u < |mask| && mask[u] == 1.0 && kl[u] <= kl'[u]
    ensures TokenRewards(reward, mask, Kl(coef, kl'))[u] <= TokenRewards(reward, mask, Kl(coef, kl))[u]
  {
    var tokens, tokens', plain := TokenRewards(reward, mask, Kl(coef, kl)), TokenRewards(reward, mask, Kl(coef, kl')),
                                  TokenRewards(reward, mask, NoKl);
    if coef > 0.0 {
      PenalisedLess(reward, mask, coef, kl);
      PenalisedLess(reward, mask, coef, kl');
      hide TokenRewards, IsLess;
      MoreTaken(tokens[u], tokens'[u], coef, kl[u], kl'[u], plain[u]);
    } else {
      PenaltyAtTokens(reward, mask, coef, kl, u);
      PenaltyAtTokens(reward, mask, coef, kl', u);
    }
  }

  lemma MoreTaken(a: real, a': real, c: real, d: real, d': real, b: real)
    requires IsLess(a, c, d, b) && IsLess(a', c, d', b) && c >= 0.0 && d <= d'
    ensures a' <= a
  {
    ScaledAtMost(c, d, d');
  }

  /** More divergence never pays: where it rises, no advantage rises, so with the values given no return does. */
  lemma MoreDivergenceNeverPays(values: seq<real>, mask: seq<real>, gamma: real, lam: real, reward: real, coef: real,
                                kl: seq<real>, kl': seq<real>, t: nat)
    requires |values| == |mask| == |kl| == |kl'| && IsMask(mask) && t <= |mask| && gamma * lam >= 0.0
    requires forall u | t <= u < |mask| && mask[u] == 1.0 :: kl[u] <= kl'[u]
    ensures Loop(TokenRewards(reward, mask, Kl(coef, kl')), values, mask, gamma, lam, t)
         <= Loop(TokenRewards(reward, mask, Kl(coef, kl)), values, mask, gamma, lam, t)
  {
    var less, more := TokenRewards(reward, mask, Kl(coef, kl')), TokenRewards(reward, mask, Kl(coef, kl));
    forall u | t <= u < |mask| && mask[u] == 1.0
      ensures less[u] <= more[u]
    {
      PenaltyOrder(reward, mask, coef, kl, kl', u);
    }
    hide TokenRewards, Loop;
    AdvantageMonotone(less, more, values, mask, gamma, lam, t);
  }

  // ------------------------------------------------------------------ lambdas

  /** What lambda mixes: the return at a valid token is its reward and, discounted, the next valid token's value and
      return in the proportion of lambda; the return at the last valid token is its reward alone. */
  lemma LambdaMixes(rewards: seq<real>, values: seq<real>, mask: seq<real>, gamma: real, lam: real, t: nat, next: nat)
    requires |rewards| == |values| == |mask| && IsMask(mask) && t < next <= |mask| && mask[t] == 1.0
    requires forall i | t < i < next :: mask[i] == 0.0
    requires next < |mask| ==> mask[next] == 1.0
    ensures Loop(rewards, values, mask, gamma, lam, t) + values[t] ==
      if next == |mask| then rewards[t]
      else rewards[t] + gamma * ((1.0 - lam) * values[next] + lam * (Loop(rewards, values, mask, gamma, lam, next) + values[next]))
  {
    MaskedPositionCarries(rewards, values, mask, gamma, lam, t + 1, next);
    NextValueCarries(rewards, values, mask, gamma, lam, t + 1, next);
    CarryStep(rewards, values, mask, gamma, lam, t);
    hide CarryAfter;
    var after := CarryAfter(rewards[t + 1..], values[t + 1..], mask[t + 1..], gamma, lam);
    BlendKeeps(values[t], after.nextValue);
    BlendKeeps(Accumulate(Delta(rewards[t], gamma, after.nextValue, values[t]), gamma * lam, after.lastGae), after.lastGae);
    Mix(rewards[t], gamma, lam, values[t], after.nextValue, after.lastGae);
  }

  lemma BlendKeeps(updated: real, carried: real)
    ensures Blend(1.0, updated, carried) == updated && Blend(0.0, updated, carried) == carried
  {}

  lemma Mix(r: real, gamma: real, lam: real, v: real, next: real, gae: real)
    ensures Accumulate(Delta(r, gamma, next, v), gamma * lam, gae) + v
         == r + gamma * ((1.0 - lam) * next + lam * (gae + next))
    ensures next == 0.0 && gae == 0.0 ==> Accumulate(Delta(r, gamma, next, v), gamma * lam, gae) + v == r
  {
    assert gamma * ((1.0 - lam) * next + lam * (gae + next)) == gamma * next + gamma * (lam * gae);
    assert gamma * (lam * gae) == gamma * lam * gae;
  }

  /** The value carried to a position is that of the next valid one, or zero at the end. */
  lemma {:induction false} NextValueCarries(rewards: seq<real>, values: seq<real>, mask: seq<real>,
                                            gamma: real, lam: real, t: nat, next: nat)
    requires |rewards| == |values| == |mask| && t <= next <= |mask|
    requires forall i | t <= i < next :: mask[i] == 0.0
    requires next < |mask| ==> mask[next] == 1.0
    ensures CarryAfter(rewards[t..], values[t..], mask[t..], gamma, lam).nextValue
         == if next == |mask| then 0.0 else values[next]
    decreases next - t
  {
    if t < |mask| {
      CarryStep(rewards, values, mask, gamma, lam, t);
      if t < next {
        NextValueCarries(rewards, values, mask, gamma, lam, t + 1, next);
      }
    }
  }

  /** Without length adaptation each override governs its own pass, whatever the shared lambda, and leaves the
      other pass alone; without overrides, or with equal ones, both passes have one lambda. */
  lemma LambdasAreIndependent(s: Setting, mask: seq<real>, l: real)
    ensures LambdaFor(s.(value := Fixed(l)), mask) == LambdaFor(s, mask)
    ensures ValueLambda(s.(policy := Fixed(l))) == ValueLambda(s)
    ensures ValueLambda(s.(value := Fixed(l))) == l
    ensures s.alpha <= 0.0 ==>
      && LambdaFor(s.(policy := Fixed(l)), mask) == l
      && LambdaFor(s.(policy := Fixed(l), value := Fixed(l)), mask) == ValueLambda(s.(policy := Fixed(l), value := Fixed(l)))
      && LambdaFor(s.(policy := Unset, value := Unset), mask) == s.shared == ValueLambda(s.(policy := Unset, value := Unset))
  {}

  /** The response length that lambda adapts to is the sum of the mask. */
  lemma {:induction false} ResponseLength(mask: seq<real>)
    requires IsMask(mask)
    ensures ValidCount(mask) as real == Sum(mask)
    decreases |mask|
  {
    if mask != [] {
      ResponseLength(mask[1..]);
      CompactStep(mask, mask);
    }
  }
}
