/** Generalized advantage estimation over a row with masked positions. */
module Gae {
  import opened Permutations

  function Power(x: real, n: nat): real {
    if n == 0 then 1.0 else x * Power(x, n - 1)
  }

  /** `s[0] + x s[1] + x^2 s[2] + ...`, added up term by term. */
  function DiscountedSum(x: real, s: seq<real>): real {
    if s == [] then 0.0
    else DiscountedSum(x, s[..|s| - 1]) + Power(x, |s| - 1) * s[|s| - 1]
  }

  /** The row with its masked positions deleted. */
  function Compact(s: seq<real>, mask: seq<real>): (r: seq<real>)
    requires |s| == |mask|
    ensures |r| <= |s|
  {
    if s == [] then []
    else (if mask[0] == 1.0 then [s[0]] else []) + Compact(s[1..], mask[1..])
  }

  /** One temporal-difference error. */
  function Delta(reward: real, gamma: real, next: real, value: real): real {
    reward + gamma * next - value
  }

  function Accumulate(delta: real, discount: real, last: real): real {
    delta + discount * last
  }

  /** Keep `updated` where the mask is one and `carried` where it is zero. */
  function Blend(m: real, updated: real, carried: real): real {
    updated * m + (1.0 - m) * carried
  }

  /** Temporal-difference errors of an unmasked row; nothing follows its last value. */
  function Deltas(rewards: seq<real>, values: seq<real>, gamma: real): (d: seq<real>)
    requires |rewards| == |values|
    ensures |d| == |rewards|
  {
    seq(|rewards|, t requires 0 <= t < |rewards| =>
      Delta(rewards[t], gamma, if t + 1 < |values| then values[t + 1] else 0.0, values[t]))
  }

  /** The textbook advantage at the head of an unmasked row: `sum over l of (gamma lambda)^l delta_l`. */
  function Textbook(rewards: seq<real>, values: seq<real>, gamma: real, lam: real): real
    requires |rewards| == |values|
  {
    DiscountedSum(gamma * lam, Deltas(rewards, values, gamma))
  }

  /** The carry-forward state the loop holds after the positions of this row, last to first. */
  datatype Carry = Carry(nextValue: real, lastGae: real)

  function CarryAfter(rewards: seq<real>, values: seq<real>, mask: seq<real>, gamma: real, lam: real): Carry
    requires |rewards| == |values| == |mask|
  {
    if rewards == [] then Carry(0.0, 0.0)
    else
      var after := CarryAfter(rewards[1..], values[1..], mask[1..], gamma, lam);
      var delta := Delta(rewards[0], gamma, after.nextValue, values[0]);
      Carry(Blend(mask[0], values[0], after.nextValue),
            Blend(mask[0], Accumulate(delta, gamma * lam, after.lastGae), after.lastGae))
  }

  lemma CarryStep(rewards: seq<real>, values: seq<real>, mask: seq<real>, gamma: real, lam: real, t: nat)
    requires |rewards| == |values| == |mask| && t < |mask|
    ensures var after := CarryAfter(rewards[t + 1..], values[t + 1..], mask[t + 1..], gamma, lam);
      CarryAfter(rewards[t..], values[t..], mask[t..], gamma, lam) ==
        Carry(Blend(mask[t], values[t], after.nextValue),
              Blend(mask[t], Accumulate(Delta(rewards[t], gamma, after.nextValue, values[t]), gamma * lam, after.lastGae),
                    after.lastGae))
  {
    hide Blend;
    hide Delta;
    hide Accumulate;
    assert rewards[t..][1..] == rewards[t + 1..] && values[t..][1..] == values[t + 1..] && mask[t..][1..] == mask[t + 1..];
  }

  /** The accumulator the loop stores at position `t`. */
  function Loop(rewards: seq<real>, values: seq<real>, mask: seq<real>, gamma: real, lam: real, t: nat): real
    requires |rewards| == |values| == |mask| && t <= |rewards|
  {
    CarryAfter(rewards[t..], values[t..], mask[t..], gamma, lam).lastGae
  }

  /** The loop: advantages are collected from the last position to the first, then reversed. */
  method ComputeGae(rewards: seq<real>, values: seq<real>, mask: seq<real>, gamma: real, lam: real)
    returns (advantages: seq<real>, valueReturns: seq<real>)
    requires |rewards| == |values| == |mask|
    ensures |advantages| == |valueReturns| == |rewards|
    ensures forall t: nat | t < |rewards| :: advantages[t] == Loop(rewards, values, mask, gamma, lam, t)
    ensures forall t: nat | t < |rewards| :: valueReturns[t] == advantages[t] + values[t]
  {
    var nextValues, lastGaeLam := 0.0, 0.0;
    var n := |rewards|;
    var advantagesReversed := [];
    var t := n;
    assert Carry(0.0, 0.0) == CarryAfter(rewards[n..], values[n..], mask[n..], gamma, lam);
    hide CarryAfter;
    hide Blend;
    hide Delta;
    hide Accumulate;
    while t > 0
      invariant 0 <= t <= n && |advantagesReversed| == n - t
      invariant Carry(nextValues, lastGaeLam) == CarryAfter(rewards[t..], values[t..], mask[t..], gamma, lam)
      invariant forall k: nat | k < n - t :: advantagesReversed[k] == Loop(rewards, values, mask, gamma, lam, n - 1 - k)
    {
      t := t - 1;
      CarryStep(rewards, values, mask, gamma, lam, t);
      var delta := Delta(rewards[t], gamma, nextValues, values[t]);
      var newGaeLam := Accumulate(delta, gamma * lam, lastGaeLam);
      var m := mask[t];
      nextValues := Blend(m, values[t], nextValues);
      lastGaeLam := Blend(m, newGaeLam, lastGaeLam);
      assert lastGaeLam == Loop(rewards, values, mask, gamma, lam, t);
      advantagesReversed := advantagesReversed + [lastGaeLam];
    }
    advantages := seq(n, i requires 0 <= i < n => advantagesReversed[n - 1 - i]);
    valueReturns := seq(n, i requires 0 <= i < n => advantages[i] + values[i]);
  }

  // --------------------------------------------------------------- refinement

  lemma {:induction false} DiscountedSumHorner(x: real, head: real, tail: seq<real>)
    ensures DiscountedSum(x, [head] + tail) == Accumulate(head, x, DiscountedSum(x, tail))
    decreases |tail|
  {
    var s := [head] + tail;
    if tail == [] {
      assert s[..0] == [];
      assert Power(x, 0) == 1.0;
    } else {
      var n := |tail|;
      assert s[..n] == [head] + tail[..n - 1];
      DiscountedSumHorner(x, head, tail[..n - 1]);
      var last := tail[n - 1];
      DistributeLast(x, DiscountedSum(x, tail[..n - 1]), Power(x, n - 1), last);
    }
  }

  lemma DistributeLast(x: real, a: real, p: real, last: real)
    ensures x * (a + p * last) == x * a + x * p * last
  {}

  lemma TextbookStep(r: real, v: real, rewards: seq<real>, values: seq<real>, gamma: real, lam: real)
    requires |rewards| == |values|
    ensures Textbook([r] + rewards, [v] + values, gamma, lam)
         == Accumulate(Delta(r, gamma, if values == [] then 0.0 else values[0], v), gamma * lam,
                       Textbook(rewards, values, gamma, lam))
  {
    hide Delta;
    hide Accumulate;
    var delta := Delta(r, gamma, if values == [] then 0.0 else values[0], v);
    var rs, vs := [r] + rewards, [v] + values;
    var left, right := Deltas(rs, vs, gamma), [delta] + Deltas(rewards, values, gamma);
    forall t | 0 <= t < |left|
      ensures left[t] == right[t]
    {
      if t > 0 {
        assert rs[t] == rewards[t - 1] && vs[t] == values[t - 1];
        assert t + 1 < |vs| ==> vs[t + 1] == values[t];
      }
    }
    assert left == right;
    DiscountedSumHorner(gamma * lam, delta, Deltas(rewards, values, gamma));
    hide DiscountedSum;
  }

  /** Refinement: on a 0/1 mask the carried accumulator is the textbook advantage of the compacted
      row, and the carried value is the compacted row's first value. */
  lemma {:induction false} CarryIsTextbook(rewards: seq<real>, values: seq<real>, mask: seq<real>, gamma: real, lam: real)
    requires |rewards| == |values| == |mask| && IsMask(mask)
    ensures |Compact(rewards, mask)| == |Compact(values, mask)|
    ensures var c := CarryAfter(rewards, values, mask, gamma, lam);
      && c.lastGae == Textbook(Compact(rewards, mask), Compact(values, mask), gamma, lam)
      && c.nextValue == (if Compact(values, mask) == [] then 0.0 else Compact(values, mask)[0])
    decreases |rewards|
  {
    if rewards != [] {
      CarryIsTextbook(rewards[1..], values[1..], mask[1..], gamma, lam);
      if mask[0] == 1.0 {
        TextbookStep(rewards[0], values[0], Compact(rewards[1..], mask[1..]), Compact(values[1..], mask[1..]), gamma, lam);
      } else {
        assert [] + Compact(rewards[1..], mask[1..]) == Compact(rewards[1..], mask[1..]);
        assert [] + Compact(values[1..], mask[1..]) == Compact(values[1..], mask[1..]);
      }
    }
  }

  lemma {:induction false} CompactAgrees(s: seq<real>, s': seq<real>, mask: seq<real>)
    requires |s| == |s'| == |mask| && forall i | 0 <= i < |s| && mask[i] == 1.0 :: s[i] == s'[i]
    ensures Compact(s, mask) == Compact(s', mask)
    decreases |s|
  {
    if s != [] {
      CompactAgrees(s[1..], s'[1..], mask[1..]);
    }
  }

  /** Masked rewards and values never matter, at any position. */
  lemma MaskedEntriesNeverMatter(rewards: seq<real>, values: seq<real>, rewards': seq<real>, values': seq<real>,
                                 mask: seq<real>, gamma: real, lam: real, t: nat)
    requires |rewards| == |values| == |mask| == |rewards'| == |values'| && IsMask(mask) && t <= |mask|
    requires forall i | 0 <= i < |mask| && mask[i] == 1.0 :: rewards[i] == rewards'[i] && values[i] == values'[i]
    ensures Loop(rewards, values, mask, gamma, lam, t) == Loop(rewards', values', mask, gamma, lam, t)
  {
    CarryIsTextbook(rewards[t..], values[t..], mask[t..], gamma, lam);
    CarryIsTextbook(rewards'[t..], values'[t..], mask[t..], gamma, lam);
    CompactAgrees(rewards[t..], rewards'[t..], mask[t..]);
    CompactAgrees(values[t..], values'[t..], mask[t..]);
  }

  /** At masked positions the accumulator is that of the next valid position, or zero at the end. */
  lemma {:induction false} MaskedPositionCarries(rewards: seq<real>, values: seq<real>, mask: seq<real>,
                                                gamma: real, lam: real, t: nat, next: nat)
    requires |rewards| == |values| == |mask| && t <= next <= |mask|
    requires forall i | t <= i < next :: mask[i] == 0.0
    ensures Loop(rewards, values, mask, gamma, lam, t) == Loop(rewards, values, mask, gamma, lam, next)
    ensures next == |mask| ==> Loop(rewards, values, mask, gamma, lam, t) == 0.0
    decreases next - t
  {
    if t < next {
      assert rewards[t..][1..] == rewards[t + 1..] && values[t..][1..] == values[t + 1..] && mask[t..][1..] == mask[t + 1..];
      MaskedPositionCarries(rewards, values, mask, gamma, lam, t + 1, next);
    }
  }

  // -------------------------------------------------------------- telescoping

  /** With lambda = 1 the value terms telescope away, for any gamma. */
  lemma {:induction false} TextbookTelescopes(rewards: seq<real>, values: seq<real>, gamma: real)
    requires |rewards| == |values| > 0
    ensures Textbook(rewards, values, gamma, 1.0) + values[0] == DiscountedSum(gamma, rewards)
    decreases |rewards|
  {
    hide *;
    var rs, vs := rewards[1..], values[1..];
    assert rewards == [rewards[0]] + rs && values == [values[0]] + vs;
    var next := if vs == [] then 0.0 else vs[0];
    if rs != [] {
      TextbookTelescopes(rs, vs, gamma);
    } else {
      NothingToSum(rs, vs, gamma);
    }
    assert next + Textbook(rs, vs, gamma, 1.0) == DiscountedSum(gamma, rs);
    TelescopeStep(rewards[0], gamma, next, values[0], Textbook(rs, vs, gamma, 1.0), DiscountedSum(gamma, rs));
    TextbookStep(rewards[0], values[0], rs, vs, gamma, 1.0);
    assert Textbook(rewards, values, gamma, 1.0) == Textbook([rewards[0]] + rs, [values[0]] + vs, gamma, 1.0);
    DiscountedSumHorner(gamma, rewards[0], rs);
  }

  lemma NothingToSum(rewards: seq<real>, values: seq<real>, gamma: real)
    requires rewards == [] && values == []
    ensures Textbook(rewards, values, gamma, 1.0) == DiscountedSum(gamma, rewards) == 0.0
  {
    assert Deltas(rewards, values, gamma) == [];
  }

  lemma TelescopeStep(r: real, gamma: real, next: real, v: real, tail: real, sum: real)
    requires next + tail == sum
    ensures Accumulate(Delta(r, gamma, next, v), gamma * 1.0, tail) + v == Accumulate(r, gamma, sum)
  {}

  /** Lambda = 1: the return at a valid token is the discounted sum of the rewards at it and at
      the later valid tokens. */
  lemma ReturnIsDiscountedRewards(rewards: seq<real>, values: seq<real>, mask: seq<real>, gamma: real, t: nat)
    requires |rewards| == |values| == |mask| && IsMask(mask) && t < |mask| && mask[t] == 1.0
    ensures Loop(rewards, values, mask, gamma, 1.0, t) + values[t] == DiscountedSum(gamma, Compact(rewards[t..], mask[t..]))
  {
    CarryIsTextbook(rewards[t..], values[t..], mask[t..], gamma, 1.0);
    assert Compact(values[t..], mask[t..])[0] == values[t];
    TextbookTelescopes(Compact(rewards[t..], mask[t..]), Compact(values[t..], mask[t..]), gamma);
  }

  // --------------------------------------------------------- token-level rewards

  /** The settings that decide whether a KL penalty enters the rewards. */
  datatype KlSetting = NoKl | Kl(coef: real, perToken: seq<real>)

  predicate IsLastValid(mask: seq<real>, t: nat) {
    t < |mask| && mask[t] == 1.0 && forall i | t < i < |mask| :: mask[i] == 0.0
  }

  /** The reward the design gives token `t`. */
  function TokenReward(reward: real, mask: seq<real>, kl: KlSetting, t: nat): real
    requires t < |mask| && (kl.Kl? ==> |kl.perToken| == |mask|)
  {
    var penalty := if kl.Kl? && kl.coef > 0.0 then -kl.coef * kl.perToken[t] else 0.0;
    var terminal := if IsLastValid(mask, t) then reward else 0.0;
    if mask[t] == 0.0 then 0.0 else penalty + terminal
  }

  function TokenRewards(reward: real, mask: seq<real>, kl: KlSetting): (tokens: seq<real>)
    requires kl.Kl? ==> |kl.perToken| == |mask|
    ensures |tokens| == |mask|
  {
    seq(|mask|, t requires 0 <= t < |mask| => TokenReward(reward, mask, kl, t))
  }

  /** `argmax` of the reversed mask: the first of the largest entries. */
  method FirstMaximum(s: seq<real>) returns (k: nat)
    requires s != []
    ensures k < |s| && (forall i | 0 <= i < |s| :: s[i] <= s[k]) && (forall i | 0 <= i < k :: s[i] < s[k])
  {
    k := 0;
    for i := 1 to |s|
      invariant k < i && (forall j | 0 <= j < i :: s[j] <= s[k]) && (forall j | 0 <= j < k :: s[j] < s[k])
    {
      if s[i] > s[k] { k := i; }
    }
  }

  /** Reward of one sample spread over its tokens: a KL penalty at response tokens if configured,
      the terminal reward at the last response token, nothing anywhere else. */
  method BuildTokenLevelRewards(reward: real, mask: seq<real>, kl: KlSetting) returns (tokens: seq<real>)
    requires mask != [] && IsMask(mask)
    requires kl.Kl? ==> |kl.perToken| == |mask|
    ensures tokens == TokenRewards(reward, mask, kl)
  {
    var n := |mask|;
    tokens := seq(n, _ => 0.0);
    if kl.Kl? && kl.coef > 0.0 {
      tokens := seq(n, i requires 0 <= i < n && |tokens| == n => tokens[i] - kl.coef * kl.perToken[i]);
    }
    var flipped := seq(n, i requires 0 <= i < n => mask[n - 1 - i]);
    var k := FirstMaximum(flipped);
    var lastResponse := n - 1 - k;
    var hasResponse := exists i | 0 <= i < n :: mask[i] == 1.0;
    if hasResponse {
      var i :| 0 <= i < n && mask[i] == 1.0;
      assert flipped[n - 1 - i] == 1.0;
      forall j | lastResponse < j < n
        ensures mask[j] == 0.0
      {
        assert flipped[n - 1 - j] < flipped[k];
      }
      assert IsLastValid(mask, lastResponse);
      tokens := tokens[lastResponse := tokens[lastResponse] + reward];
    }
    tokens := seq(n, i requires 0 <= i < n && |tokens| == n => tokens[i] * mask[i]);
    forall t: nat | t < n
      ensures tokens[t] == TokenReward(reward, mask, kl, t)
    {}
  }

  predicate TerminalOnly(tokens: seq<real>, mask: seq<real>, reward: real) {
    && |tokens| == |mask|
    && forall t: nat | t < |mask| :: tokens[t] == if mask[t] == 1.0 && IsLastValid(mask, t) then reward else 0.0
  }

  /** How many valid tokens come strictly after position `t`. */
  function ValidAfter(mask: seq<real>, t: nat): nat
    requires t < |mask|
  {
    |Compact(mask[t + 1..], mask[t + 1..])|
  }

  lemma LastValidShifts(mask: seq<real>, t: nat, u: nat)
    requires t <= |mask|
    ensures IsLastValid(mask[t..], u) <==> IsLastValid(mask, t + u)
  {
    var ms := mask[t..];
    if IsLastValid(ms, u) {
      forall i | t + u < i < |mask| ensures mask[i] == 0.0 { assert ms[i - t] == 0.0; }
    }
    if IsLastValid(mask, t + u) {
      forall i | u < i < |ms| ensures ms[i] == 0.0 { assert mask[t + i] == 0.0; }
    }
  }

  lemma TerminalShifts(tokens: seq<real>, mask: seq<real>, reward: real, t: nat)
    requires TerminalOnly(tokens, mask, reward) && t <= |mask|
    ensures TerminalOnly(tokens[t..], mask[t..], reward)
  {
    forall u: nat | u < |mask[t..]|
      ensures tokens[t..][u] == if mask[t..][u] == 1.0 && IsLastValid(mask[t..], u) then reward else 0.0
    {
      LastValidShifts(mask, t, u);
    }
  }

  lemma {:induction false} CompactEmptyIff(mask: seq<real>)
    requires IsMask(mask)
    ensures Compact(mask, mask) == [] <==> forall i | 0 <= i < |mask| :: mask[i] == 0.0
    decreases |mask|
  {
    if mask != [] {
      var ms := mask[1..];
      CompactEmptyIff(ms);
      if forall i | 0 <= i < |ms| :: ms[i] == 0.0 {
        assert forall i | 0 < i < |mask| :: mask[i] == ms[i - 1];
      }
      if forall i | 0 <= i < |mask| :: mask[i] == 0.0 {
        assert forall i | 0 <= i < |ms| :: ms[i] == mask[i + 1];
      }
    }
  }

  /** `gamma^(n-1) R`: the terminal reward seen from the first of `n` valid tokens. */
  function TerminalSum(gamma: real, reward: real, n: nat): real {
    if n == 0 then 0.0 else Power(gamma, n - 1) * reward
  }

  /** Discounting a row whose only reward is terminal. */
  lemma {:induction false} SumOfTerminal(gamma: real, tokens: seq<real>, mask: seq<real>, reward: real)
    requires IsMask(mask) && TerminalOnly(tokens, mask, reward)
    ensures |Compact(tokens, mask)| == |Compact(mask, mask)|
    ensures DiscountedSum(gamma, Compact(tokens, mask)) == TerminalSum(gamma, reward, |Compact(mask, mask)|)
    decreases |mask|
  {
    if mask != [] {
      var ts, ms := tokens[1..], mask[1..];
      TerminalShifts(tokens, mask, reward, 1);
      SumOfTerminal(gamma, ts, ms, reward);
      CompactStep(tokens, mask);
      CompactStep(mask, mask);
      if mask[0] == 1.0 {
        HeadTerminal(tokens, mask, reward);
        hide *;
        TerminalSumStep(gamma, reward, |Compact(ms, ms)|);
        DiscountedSumHorner(gamma, tokens[0], Compact(ts, ms));
      }
    }
  }

  lemma CompactStep(s: seq<real>, mask: seq<real>)
    requires |s| == |mask| > 0
    ensures Compact(s, mask) ==
      if mask[0] == 1.0 then [s[0]] + Compact(s[1..], mask[1..]) else Compact(s[1..], mask[1..])
  {
    assert [] + Compact(s[1..], mask[1..]) == Compact(s[1..], mask[1..]);
  }

  lemma HeadTerminal(tokens: seq<real>, mask: seq<real>, reward: real)
    requires IsMask(mask) && TerminalOnly(tokens, mask, reward) && mask != [] && mask[0] == 1.0
    ensures tokens[0] == if |Compact(mask[1..], mask[1..])| == 0 then reward else 0.0
  {
    CompactEmptyIff(mask[1..]);
    HeadIsLastIff(mask);
  }

  lemma TerminalSumStep(gamma: real, reward: real, n: nat)
    ensures Accumulate(if n == 0 then reward else 0.0, gamma, TerminalSum(gamma, reward, n)) == TerminalSum(gamma, reward, n + 1)
  {}

  lemma HeadIsLastIff(mask: seq<real>)
    requires mask != [] && mask[0] == 1.0 && IsMask(mask)
    ensures IsLastValid(mask, 0) <==> forall i | 0 <= i < |mask[1..]| :: mask[1..][i] == 0.0
  {
    assert forall i | 0 < i < |mask| :: mask[i] == mask[1..][i - 1];
    assert forall i | 0 <= i < |mask[1..]| :: mask[1..][i] == mask[i + 1];
  }

  /** With lambda = 1, terminal reward R and no KL, the return at a valid token is `gamma^k R`,
      where k counts the valid tokens, not all tokens, strictly after it. */
  lemma ReturnIsDiscountedTerminal(values: seq<real>, mask: seq<real>, gamma: real, reward: real, t: nat)
    requires |values| == |mask| && IsMask(mask) && t < |mask| && mask[t] == 1.0
    ensures Loop(TokenRewards(reward, mask, NoKl), values, mask, gamma, 1.0, t) + values[t]
         == Power(gamma, ValidAfter(mask, t)) * reward
  {
    PlainRewardsAreTerminal(reward, mask);
    hide TokenRewards;
    ReturnIsDiscountedRewards(TokenRewards(reward, mask, NoKl), values, mask, gamma, t);
    DiscountedFrom(gamma, TokenRewards(reward, mask, NoKl), mask, reward, t);
    hide *;
  }

  lemma PlainRewardsAreTerminal(reward: real, mask: seq<real>)
    requires IsMask(mask)
    ensures TerminalOnly(TokenRewards(reward, mask, NoKl), mask, reward)
  {
    hide IsLastValid;
  }

  lemma DiscountedFrom(gamma: real, tokens: seq<real>, mask: seq<real>, reward: real, t: nat)
    requires IsMask(mask) && TerminalOnly(tokens, mask, reward) && t < |mask| && mask[t] == 1.0
    ensures DiscountedSum(gamma, Compact(tokens[t..], mask[t..])) == Power(gamma, ValidAfter(mask, t)) * reward
  {
    TerminalShifts(tokens, mask, reward, t);
    SumOfTerminal(gamma, tokens[t..], mask[t..], reward);
    assert mask[t..][0] == 1.0 && mask[t..][1..] == mask[t + 1..];
    CompactStep(mask[t..], mask[t..]);
    assert |Compact(mask[t..], mask[t..])| == ValidAfter(mask, t) + 1;
    hide *;
    TerminalFromFirst(gamma, reward, ValidAfter(mask, t));
  }

  lemma TerminalFromFirst(gamma: real, reward: real, n: nat)
    ensures TerminalSum(gamma, reward, n + 1) == Power(gamma, n) * reward
  {}

  // ---------------------------------------------------------- choosing lambda

  /** An optional override of lambda. */
  datatype Lambda = Unset | Fixed(lam: real)

  function Clamp01(x: real): real {
    if x < 0.0 then 0.0 else if x > 1.0 then 1.0 else x
  }

  /** Priority: length-adaptive, then the policy override, then the shared lambda. */
  function PolicyLambda(alpha: real, policy: Lambda, shared: real, responseLength: nat): real {
    if alpha > 0.0 then
      var scaled := alpha * responseLength as real;
      Clamp01(1.0 - 1.0 / (if scaled < 1.0 then 1.0 else scaled))
    else match policy
      case Fixed(l) => l
      case Unset => shared
  }

  /** Length-adaptive lambda stays in [0, 1), never falls as responses grow, and is
      `1 - 1/(alpha l)` as soon as `alpha l` reaches one, zero before that. */
  lemma AdaptiveLambda(alpha: real, policy: Lambda, shared: real, l: nat, l': nat)
    requires alpha > 0.0 && l <= l'
    ensures 0.0 <= PolicyLambda(alpha, policy, shared, l) <= PolicyLambda(alpha, policy, shared, l') < 1.0
    ensures alpha * l as real >= 1.0 ==> PolicyLambda(alpha, policy, shared, l) == 1.0 - 1.0 / (alpha * l as real)
    ensures alpha * l as real <= 1.0 ==> PolicyLambda(alpha, policy, shared, l) == 0.0
  {
    var a, b := alpha * l as real, alpha * l' as real;
    assert a <= b;
    var x, y := if a < 1.0 then 1.0 else a, if b < 1.0 then 1.0 else b;
    assert 1.0 <= x <= y;
    Reciprocal(x, y);
  }

  lemma Reciprocal(x: real, y: real)
    requires 1.0 <= x <= y
    ensures 0.0 < 1.0 / y <= 1.0 / x <= 1.0
  {
    var p, q := 1.0 / x, 1.0 / y;
    assert p * x == 1.0 && q * y == 1.0;
  }

  /** The settings of one estimator. */
  datatype Setting = Setting(gamma: real, shared: real, value: Lambda, policy: Lambda, alpha: real)

  function ValueLambda(s: Setting): real {
    match s.value case Fixed(l) => l case Unset => s.shared
  }

  function ValidCount(mask: seq<real>): nat {
    |Compact(mask, mask)|
  }

  function LambdaFor(s: Setting, mask: seq<real>): real {
    PolicyLambda(s.alpha, s.policy, s.shared, ValidCount(mask))
  }

  /** Advantages and returns of one sample; decoupled settings run the recursion twice. */
  method ComputeAdvantage(reward: real, values: seq<real>, mask: seq<real>, kl: KlSetting, s: Setting)
    returns (advantages: seq<real>, valueReturns: seq<real>)
    requires mask != [] && IsMask(mask) && |values| == |mask| && (kl.Kl? ==> |kl.perToken| == |mask|)
    ensures |advantages| == |valueReturns| == |mask|
    ensures forall t: nat | t < |mask| ::
      advantages[t] == (if mask[t] == 0.0 then 0.0 else Loop(TokenRewards(reward, mask, kl), values, mask, s.gamma, LambdaFor(s, mask), t))
    ensures forall t: nat | t < |mask| ::
      valueReturns[t] == Loop(TokenRewards(reward, mask, kl), values, mask, s.gamma, ValueLambda(s), t) + values[t]
  {
    var tokenRewards := BuildTokenLevelRewards(reward, mask, kl);
    var raw;
    if s.value.Fixed? || s.policy.Fixed? || s.alpha > 0.0 {
      var unused;
      unused, valueReturns := ComputeGae(tokenRewards, values, mask, s.gamma, ValueLambda(s));
      raw, unused := ComputeGae(tokenRewards, values, mask, s.gamma, LambdaFor(s, mask));
    } else {
      raw, valueReturns := ComputeGae(tokenRewards, values, mask, s.gamma, s.shared);
    }
    advantages := seq(|mask|, t requires 0 <= t < |mask| => if mask[t] == 0.0 then 0.0 else raw[t]);
  }
}
