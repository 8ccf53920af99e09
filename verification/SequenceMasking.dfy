/** Sequence-level log-probability error: measuring it, masking the sequences above a threshold,
    and why doing so twice is doing so once. */
module SequenceMasking {
  import opened Arithmetic
  import opened Permutations
  import opened Wrappers

  type Exp = real -> real

  /** What the proofs need of `exp` on non-negative numbers. */
  ghost predicate IsExp(e: Exp) {
    forall x: real | x >= 0.0 :: e(x) >= 1.0
  }

  /** The columns of one sequence that masking never changes. */
  datatype Sequence = Sequence(tokenMask: seq<real>, prevLogprobs: seq<real>, generationLogprobs: seq<real>)

  predicate Shaped(x: Sequence) {
    |x.tokenMask| == |x.prevLogprobs| == |x.generationLogprobs|
  }

  predicate AllShaped(rows: seq<Sequence>) {
    forall i | 0 <= i < |rows| :: Shaped(rows[i])
  }

  /** The training batch; `sampleMask` is replaced when masking is applied. */
  class TrainData {
    const rows: seq<Sequence>
    var sampleMask: seq<real>

    constructor (rows: seq<Sequence>, sampleMask: seq<real>)
      ensures this.rows == rows && this.sampleMask == sampleMask
    {
      this.rows, this.sampleMask := rows, sampleMask;
    }
  }

  datatype Stats = Stats(max: real, mean: real, min: real)

  const NOTHING := Stats(0.0, 0.0, 0.0)

  datatype Metrics = Metrics(before: Stats, after: Stats, numMasked: int, maskedCorrectPct: real)

  // ----------------------------------------------------------- specification

  /** The first column predicts nothing. */
  function Later(s: seq<real>): seq<real> {
    if s == [] then [] else s[1..]
  }

  function Abs(x: real): real {
    if x < 0.0 then -x else x
  }

  /** Token mask times sample mask. */
  function Combined(token: real, sample: real): real {
    token * sample
  }

  /** `exp(|generation - previous|)` of a token, counted by its weight. */
  function TokenError(e: Exp, generation: real, previous: real, weight: real): real {
    e(Abs(generation - previous) * weight) * weight
  }

  function TokenWeights(x: Sequence, sample: real): (t: seq<real>)
    requires Shaped(x)
    ensures |t| == |Later(x.tokenMask)|
  {
    var tokens := Later(x.tokenMask);
    seq(|tokens|, i requires 0 <= i < |tokens| => Combined(tokens[i], sample))
  }

  function TokenErrors(e: Exp, x: Sequence, sample: real): (t: seq<real>)
    requires Shaped(x)
    ensures |t| == |Later(x.tokenMask)|
  {
    var weights := TokenWeights(x, sample);
    var previous, generation := Later(x.prevLogprobs), Later(x.generationLogprobs);
    seq(|weights|, i requires 0 <= i < |weights| => TokenError(e, generation[i], previous[i], weights[i]))
  }

  predicate IsValid(x: Sequence, sample: real)
    requires Shaped(x)
  {
    Sum(TokenWeights(x, sample)) > 0.0
  }

  function AtLeastOne(x: real): real {
    if x < 1.0 then 1.0 else x
  }

  /** The multiplicative probability error of a sequence; zero stands for "no tokens". */
  function SequenceError(e: Exp, x: Sequence, sample: real): real
    requires Shaped(x)
  {
    if IsValid(x, sample) then Sum(TokenErrors(e, x, sample)) / AtLeastOne(Sum(TokenWeights(x, sample))) else 0.0
  }

  function Errors(e: Exp, rows: seq<Sequence>, sampleMask: seq<real>): (errors: seq<real>)
    requires |rows| == |sampleMask| && AllShaped(rows)
    ensures |errors| == |rows|
  {
    seq(|rows|, i requires 0 <= i < |rows| => SequenceError(e, rows[i], sampleMask[i]))
  }

  function Valid(rows: seq<Sequence>, sampleMask: seq<real>): (valid: seq<bool>)
    requires |rows| == |sampleMask| && AllShaped(rows)
    ensures |valid| == |rows|
  {
    seq(|rows|, i requires 0 <= i < |rows| => IsValid(rows[i], sampleMask[i]))
  }

  /** The new sample mask: unchanged where the error is within the threshold, zero elsewhere. */
  function Passing(errors: seq<real>, sampleMask: seq<real>, threshold: Option<real>): (mask: seq<real>)
    requires |errors| == |sampleMask|
    ensures |mask| == |sampleMask|
  {
    if threshold.None? then sampleMask
    else seq(|errors|, i requires 0 <= i < |errors| => if errors[i] <= threshold.value then sampleMask[i] else 0.0)
  }

  function Pick(errors: seq<real>, keep: seq<bool>): seq<real>
    requires |errors| == |keep|
  {
    if errors == [] then []
    else (if keep[0] then [errors[0]] else []) + Pick(errors[1..], keep[1..])
  }

  function Largest(s: seq<real>): real
    requires s != []
  {
    if |s| == 1 then s[0] else var rest := Largest(s[..|s| - 1]); if s[|s| - 1] > rest then s[|s| - 1] else rest
  }

  function Smallest(s: seq<real>): real
    requires s != []
  {
    if |s| == 1 then s[0] else var rest := Smallest(s[..|s| - 1]); if s[|s| - 1] < rest then s[|s| - 1] else rest
  }

  function Summary(s: seq<real>): Stats {
    if s == [] then NOTHING else Stats(Largest(s), Sum(s) / |s| as real, Smallest(s))
  }

  function Kept(valid: seq<bool>, mask: seq<real>): (keep: seq<bool>)
    requires |valid| == |mask|
    ensures |keep| == |valid|
  {
    seq(|valid|, i requires 0 <= i < |valid| => mask[i] != 0.0 && valid[i])
  }

  function Truncate(x: real): int {
    if x < 0.0 then -(-x).Floor else x.Floor
  }

  /** How much of the sample mask was taken away, sequence by sequence. */
  function Difference(before: seq<real>, after: seq<real>): (d: seq<real>)
    requires |before| == |after|
    ensures |d| == |before|
  {
    seq(|before|, i requires 0 <= i < |before| => before[i] - after[i])
  }

  function CorrectAmong(rewards: seq<real>, difference: seq<real>): nat
    requires |rewards| == |difference|
  {
    if rewards == [] then 0
    else (if difference[0] != 0.0 && rewards[0] == 1.0 then 1 else 0) + CorrectAmong(rewards[1..], difference[1..])
  }

  /** What the function returns for a batch. */
  function MetricsOf(e: Exp, rows: seq<Sequence>, sampleMask: seq<real>, rewards: seq<real>, threshold: Option<real>): Metrics
    requires |rows| == |sampleMask| == |rewards| && AllShaped(rows)
  {
    var errors := Errors(e, rows, sampleMask);
    var valid := Valid(rows, sampleMask);
    var before := Summary(Pick(errors, valid));
    if threshold.None? then Metrics(before, before, 0, 0.0)
    else
      var mask := Passing(errors, sampleMask, threshold);
      var difference := Difference(sampleMask, mask);
      var masked := Truncate(Sum(difference));
      Metrics(before, Summary(Pick(errors, Kept(valid, mask))), masked,
              if masked > 0 then CorrectAmong(rewards, difference) as real / masked as real else 0.0)
  }

  // -------------------------------------------------------------- operations

  method RowError(e: Exp, x: Sequence, sample: real) returns (error: real, valid: bool)
    requires Shaped(x)
    ensures error == SequenceError(e, x, sample) && valid == IsValid(x, sample)
  {
    hide Combined, TokenError, Sum;
    ghost var weights, tokenErrors := TokenWeights(x, sample), TokenErrors(e, x, sample);
    var tokens, previous, generation := Later(x.tokenMask), Later(x.prevLogprobs), Later(x.generationLogprobs);
    var denom, num := 0.0, 0.0;
    assert weights[..0] == [] && tokenErrors[..0] == [];
    SumZero([]);
    for i := 0 to |tokens|
      invariant denom == Sum(weights[..i]) && num == Sum(tokenErrors[..i])
    {
      SumNext(weights, i);
      SumNext(tokenErrors, i);
      var mask := Combined(tokens[i], sample);
      denom := denom + mask;
      num := num + TokenError(e, generation[i], previous[i], mask);
    }
    assert weights[..|tokens|] == weights && tokenErrors[..|tokens|] == tokenErrors;
    valid := denom > 0.0;
    error := if valid then num / AtLeastOne(denom) else 0.0;
  }

  lemma SumNext(s: seq<real>, i: nat)
    requires i < |s|
    ensures Sum(s[..i + 1]) == Sum(s[..i]) + s[i]
  {
    SumLast(s[..i + 1]);
    assert s[..i + 1][..i] == s[..i];
  }

  method Summarize(s: seq<real>) returns (stats: Stats)
    ensures stats == Summary(s)
  {
    if s == [] { return NOTHING; }
    var largest, total, smallest := s[0], s[0], s[0];
    assert s[..1] == [s[0]];
    SumSingle(s[0]);
    for i := 1 to |s|
      invariant largest == Largest(s[..i]) && total == Sum(s[..i]) && smallest == Smallest(s[..i])
    {
      SumNext(s, i);
      assert s[..i + 1][..i] == s[..i];
      largest := if s[i] > largest then s[i] else largest;
      smallest := if s[i] < smallest then s[i] else smallest;
      total := total + s[i];
    }
    assert s[..|s|] == s;
    stats := Stats(largest, total / |s| as real, smallest);
  }

  method MeasureAll(e: Exp, rows: seq<Sequence>, sampleMask: seq<real>) returns (errors: seq<real>, valid: seq<bool>)
    requires |rows| == |sampleMask| && AllShaped(rows)
    ensures errors == Errors(e, rows, sampleMask) && valid == Valid(rows, sampleMask)
  {
    hide SequenceError, IsValid;
    var n := |rows|;
    var seqError, validSeq := new real[n], new bool[n];
    for i := 0 to n
      invariant forall j | 0 <= j < i :: seqError[j] == SequenceError(e, rows[j], sampleMask[j])
      invariant forall j | 0 <= j < i :: validSeq[j] == IsValid(rows[j], sampleMask[j])
    {
      var error, counts := RowError(e, rows[i], sampleMask[i]);
      seqError[i], validSeq[i] := error, counts;
    }
    errors, valid := seqError[..], validSeq[..];
  }

  method ComputeAndApplySeqLogprobErrorMasking(e: Exp, data: TrainData, rewards: seq<real>, threshold: Option<real>)
    returns (metrics: Metrics)
    requires |data.rows| == |data.sampleMask| == |rewards| && AllShaped(data.rows)
    modifies data
    ensures data.sampleMask == Passing(Errors(e, data.rows, old(data.sampleMask)), old(data.sampleMask), threshold)
    ensures metrics == MetricsOf(e, data.rows, old(data.sampleMask), rewards, threshold)
  {
    hide *;
    var errors, valid := MeasureAll(e, data.rows, data.sampleMask);
    var before := Summarize(Pick(errors, valid));
    metrics := Metrics(before, before, 0, 0.0);
    if threshold.Some? {
      var original := data.sampleMask;
      var mask := Passing(errors, original, threshold);
      var difference := Difference(original, mask);
      var masked := Truncate(Sum(difference));
      var correct := if masked > 0 then CorrectAmong(rewards, difference) as real / masked as real else 0.0;
      var after := Summarize(Pick(errors, Kept(valid, mask)));
      metrics := Metrics(before, after, masked, correct);
      data.sampleMask := mask;
    }
    MetricsFrom(e, data.rows, old(data.sampleMask), rewards, threshold);
  }

  lemma MetricsFrom(e: Exp, rows: seq<Sequence>, sampleMask: seq<real>, rewards: seq<real>, threshold: Option<real>)
    requires |rows| == |sampleMask| == |rewards| && AllShaped(rows)
    ensures var errors := Errors(e, rows, sampleMask);
      var valid := Valid(rows, sampleMask);
      var mask := Passing(errors, sampleMask, threshold);
      var difference := Difference(sampleMask, mask);
      var masked := Truncate(Sum(difference));
      && (threshold.None? ==> mask == sampleMask)
      && MetricsOf(e, rows, sampleMask, rewards, threshold) ==
         if threshold.None? then Metrics(Summary(Pick(errors, valid)), Summary(Pick(errors, valid)), 0, 0.0)
         else Metrics(Summary(Pick(errors, valid)), Summary(Pick(errors, Kept(valid, mask))), masked,
                      if masked > 0 then CorrectAmong(rewards, difference) as real / masked as real else 0.0)
  {}

  // ---------------------------------------------------------------- theorems

  lemma {:induction false} SumAtLeastSum(a: seq<real>, b: seq<real>)
    requires |a| == |b| && forall i | 0 <= i < |a| :: a[i] >= b[i]
    ensures Sum(a) >= Sum(b)
  {
    if a != [] {
      SumAtLeastSum(a[1..], b[1..]);
    }
  }

  lemma {:induction false} MaskSum(s: seq<real>)
    requires IsMask(s)
    ensures Sum(s) == 0.0 || Sum(s) >= 1.0
  {
    if s != [] {
      MaskSum(s[1..]);
    }
  }

  /** Every sequence that counts has an error of at least one. */
  lemma ValidErrorAtLeastOne(e: Exp, x: Sequence, sample: real)
    requires IsExp(e) && Shaped(x) && IsMask(x.tokenMask) && (sample == 0.0 || sample == 1.0) && IsValid(x, sample)
    ensures SequenceError(e, x, sample) >= 1.0
  {
    var weights := TokenWeights(x, sample);
    assert IsMask(weights);
    MaskSum(weights);
    SumAtLeastSum(TokenErrors(e, x, sample), weights);
    QuotientAtLeastOne(Sum(TokenErrors(e, x, sample)), Sum(weights));
  }

  lemma {:induction false} ExtremesBound(s: seq<real>)
    requires s != []
    ensures Largest(s) in s && Smallest(s) in s
    ensures forall i | 0 <= i < |s| :: Smallest(s) <= s[i] <= Largest(s)
  {
    if |s| > 1 {
      var init := s[..|s| - 1];
      ExtremesBound(init);
      assert forall i | 0 <= i < |init| :: s[i] == init[i];
    }
  }

  lemma {:induction false} SumBetween(s: seq<real>, low: real, high: real)
    requires forall i | 0 <= i < |s| :: low <= s[i] <= high
    ensures low * |s| as real <= Sum(s) <= high * |s| as real
  {
    if s != [] {
      SumBetween(s[1..], low, high);
      assert low * |s| as real == low * |s[1..]| as real + low;
      assert high * |s| as real == high * |s[1..]| as real + high;
    }
  }

  lemma MeanWithin(s: seq<real>, low: real, high: real)
    requires s != [] && forall i | 0 <= i < |s| :: low <= s[i] <= high
    ensures low <= Sum(s) / |s| as real <= high
  {
    SumBetween(s, low, high);
    QuotientAtLeast(Sum(s), |s| as real, low);
    QuotientAtMost(Sum(s), |s| as real, high);
  }

  /** `min <= mean <= max`, and all three are values that occur or lie between such. */
  lemma MeanBetween(s: seq<real>)
    requires s != []
    ensures var stats := Summary(s); stats.min <= stats.mean <= stats.max && stats.min in s && stats.max in s
  {
    ExtremesBound(s);
    MeanWithin(s, Smallest(s), Largest(s));
  }

  lemma {:induction false} PickWithin(errors: seq<real>, keep: seq<bool>)
    requires |errors| == |keep|
    ensures forall v | v in Pick(errors, keep) :: exists i :: 0 <= i < |errors| && keep[i] && errors[i] == v
  {
    if errors != [] {
      PickWithin(errors[1..], keep[1..]);
      forall v | v in Pick(errors, keep)
        ensures exists i :: 0 <= i < |errors| && keep[i] && errors[i] == v
      {
        if v in Pick(errors[1..], keep[1..]) {
          var i :| 0 <= i < |errors[1..]| && keep[1..][i] && errors[1..][i] == v;
          assert keep[i + 1] && errors[i + 1] == v;
        } else {
          assert keep[0] && errors[0] == v;
        }
      }
    }
  }

  /** How far apart the two probabilities of each token are, as a factor. */
  function Factors(e: Exp, x: Sequence): (f: seq<real>)
    requires Shaped(x)
    ensures |f| == |Later(x.tokenMask)|
  {
    var previous, generation := Later(x.prevLogprobs), Later(x.generationLogprobs);
    seq(|previous|, i requires 0 <= i < |previous| => e(Abs(generation[i] - previous[i])))
  }

  /** The tokens that count, the first column left out. */
  function Counted(x: Sequence): (c: seq<bool>)
    requires Shaped(x)
    ensures |c| == |Later(x.tokenMask)|
  {
    seq(|Later(x.tokenMask)|, i requires 0 <= i < |Later(x.tokenMask)| => Later(x.tokenMask)[i] == 1.0)
  }

  lemma {:induction false} WeightedSums(weights: seq<real>, errors: seq<real>, factors: seq<real>, counted: seq<bool>)
    requires |weights| == |errors| == |factors| == |counted|
    requires forall i | 0 <= i < |weights| ::
      weights[i] == (if counted[i] then 1.0 else 0.0) && errors[i] == if counted[i] then factors[i] else 0.0
    ensures Sum(weights) == |Pick(factors, counted)| as real && Sum(errors) == Sum(Pick(factors, counted))
  {
    if weights != [] {
      WeightedSums(weights[1..], errors[1..], factors[1..], counted[1..]);
      var rest := Pick(factors[1..], counted[1..]);
      if counted[0] {
        assert ([factors[0]] + rest)[1..] == rest;
      } else {
        assert [] + rest == rest;
      }
    }
  }

  /** The error of a sequence in the batch is the mean factor over its tokens that count, whatever its length, and it
      is measured if and only if there is such a token. */
  lemma ErrorIsMeanFactor(e: Exp, x: Sequence)
    requires Shaped(x) && IsMask(x.tokenMask)
    ensures IsValid(x, 1.0) <==> exists i :: 1 <= i < |x.tokenMask| && x.tokenMask[i] == 1.0
    ensures IsValid(x, 1.0) <==> Pick(Factors(e, x), Counted(x)) != []
    ensures SequenceError(e, x, 1.0) == Summary(Pick(Factors(e, x), Counted(x))).mean
  {
    WeightsByToken(e, x);
    PickedIff(Factors(e, x), Counted(x));
    CountedIff(x);
    hide Sum, TokenErrors, TokenWeights, Largest, Smallest, Pick, Factors, Counted;
  }

  lemma WeightsByToken(e: Exp, x: Sequence)
    requires Shaped(x) && IsMask(x.tokenMask)
    ensures Sum(TokenWeights(x, 1.0)) == |Pick(Factors(e, x), Counted(x))| as real
    ensures Sum(TokenErrors(e, x, 1.0)) == Sum(Pick(Factors(e, x), Counted(x)))
  {
    WeightedSums(TokenWeights(x, 1.0), TokenErrors(e, x, 1.0), Factors(e, x), Counted(x));
  }

  lemma CountedIff(x: Sequence)
    requires Shaped(x)
    ensures (exists i :: 0 <= i < |Counted(x)| && Counted(x)[i]) <==> exists i :: 1 <= i < |x.tokenMask| && x.tokenMask[i] == 1.0
  {
    if i :| 0 <= i < |Counted(x)| && Counted(x)[i] {
      assert x.tokenMask[i + 1] == 1.0;
    }
    if i :| 1 <= i < |x.tokenMask| && x.tokenMask[i] == 1.0 {
      assert Counted(x)[i - 1];
    }
  }

  lemma {:induction false} PickedIff(s: seq<real>, keep: seq<bool>)
    requires |s| == |keep|
    ensures Pick(s, keep) != [] <==> exists i :: 0 <= i < |keep| && keep[i]
  {
    if s != [] {
      PickedIff(s[1..], keep[1..]);
      if i :| 0 <= i < |keep| && keep[i] {
        if i > 0 { assert keep[1..][i - 1]; }
      }
      if Pick(s, keep) != [] && !keep[0] {
        var i :| 0 <= i < |keep[1..]| && keep[1..][i];
        assert keep[i + 1];
      }
    }
  }

  /** Generation and training give every token that counts the same probability. */
  predicate Agrees(x: Sequence)
    requires Shaped(x)
  {
    forall i | 1 <= i < |x.tokenMask| && x.tokenMask[i] == 1.0 :: x.generationLogprobs[i] == x.prevLogprobs[i]
  }

  /** So it lies between the factors of its tokens; if all their log-probabilities agree it is one. */
  lemma ErrorLiesWithin(e: Exp, x: Sequence, low: real, high: real)
    requires Shaped(x) && IsMask(x.tokenMask) && IsValid(x, 1.0)
    requires forall i | 1 <= i < |x.tokenMask| && x.tokenMask[i] == 1.0 ::
      low <= e(Abs(x.generationLogprobs[i] - x.prevLogprobs[i])) <= high
    ensures low <= SequenceError(e, x, 1.0) <= high
    ensures e(0.0) == 1.0 && Agrees(x) ==> SequenceError(e, x, 1.0) == 1.0
  {
    ErrorIsMeanFactor(e, x);
    hide SequenceError, IsValid, Summary, Pick;
    FactorsBetween(e, x, low, high);
    PickBetween(Factors(e, x), Counted(x), low, high);
    if e(0.0) == 1.0 && Agrees(x) {
      FactorsBetween(e, x, 1.0, 1.0);
      PickBetween(Factors(e, x), Counted(x), 1.0, 1.0);
    }
  }

  lemma FactorsBetween(e: Exp, x: Sequence, low: real, high: real)
    requires Shaped(x)
    requires forall i | 1 <= i < |x.tokenMask| && x.tokenMask[i] == 1.0 ::
      low <= e(Abs(x.generationLogprobs[i] - x.prevLogprobs[i])) <= high
    ensures forall i | 0 <= i < |Counted(x)| && Counted(x)[i] :: low <= Factors(e, x)[i] <= high
  {
    forall i | 0 <= i < |Counted(x)| && Counted(x)[i]
      ensures low <= Factors(e, x)[i] <= high
    {
      assert x.tokenMask[i + 1] == 1.0;
    }
  }

  lemma PickBetween(s: seq<real>, keep: seq<bool>, low: real, high: real)
    requires |s| == |keep| && Pick(s, keep) != [] && forall i | 0 <= i < |s| && keep[i] :: low <= s[i] <= high
    ensures low <= Summary(Pick(s, keep)).mean <= high
  {
    PickWithin(s, keep);
    var picked := Pick(s, keep);
    assert forall i | 0 <= i < |picked| :: picked[i] in picked;
    MeanWithin(picked, low, high);
  }

  /** On 0/1 masks: `1 <= min <= mean <= max` before masking whenever anything counts, and the largest
      error left afterwards is within the threshold. */
  lemma MetricsInRange(e: Exp, rows: seq<Sequence>, sampleMask: seq<real>, rewards: seq<real>, threshold: Option<real>)
    requires IsExp(e) && |rows| == |sampleMask| == |rewards| && AllShaped(rows) && IsMask(sampleMask)
    requires forall i | 0 <= i < |rows| :: IsMask(rows[i].tokenMask)
    ensures var m := MetricsOf(e, rows, sampleMask, rewards, threshold);
      && (m.before == NOTHING || 1.0 <= m.before.min <= m.before.mean <= m.before.max)
      && (m.after == NOTHING || 1.0 <= m.after.min <= m.after.mean <= m.after.max)
      && (threshold.Some? && m.after != NOTHING ==> m.after.max <= threshold.value)
  {
    var errors, valid := Errors(e, rows, sampleMask), Valid(rows, sampleMask);
    forall i | 0 <= i < |rows| && valid[i]
      ensures errors[i] >= 1.0
    {
      ValidErrorAtLeastOne(e, rows[i], sampleMask[i]);
    }
    var kept := Kept(valid, Passing(errors, sampleMask, threshold));
    hide Summary, Pick, SequenceError, IsValid;
    SummaryInRange(errors, valid);
    SummaryInRange(errors, kept);
    MetricsFrom(e, rows, sampleMask, rewards, threshold);
    if threshold.Some? {
      SummaryBelow(errors, kept, threshold.value);
    }
  }

  lemma SummaryInRange(errors: seq<real>, keep: seq<bool>)
    requires |errors| == |keep| && forall i | 0 <= i < |errors| && keep[i] :: errors[i] >= 1.0
    ensures var stats := Summary(Pick(errors, keep));
      stats == NOTHING || 1.0 <= stats.min <= stats.mean <= stats.max
  {
    var picked := Pick(errors, keep);
    PickWithin(errors, keep);
    if picked != [] {
      MeanBetween(picked);
    }
  }

  lemma SummaryBelow(errors: seq<real>, keep: seq<bool>, limit: real)
    requires |errors| == |keep| && forall i | 0 <= i < |errors| && keep[i] :: errors[i] <= limit
    ensures Summary(Pick(errors, keep)) == NOTHING || Summary(Pick(errors, keep)).max <= limit
  {
    var picked := Pick(errors, keep);
    PickWithin(errors, keep);
    if picked != [] {
      MeanBetween(picked);
    }
  }

  lemma {:induction false} PickAgrees(a: seq<real>, keepA: seq<bool>, b: seq<real>, keepB: seq<bool>)
    requires |a| == |keepA| && keepA == keepB && |b| == |a|
    requires forall i | 0 <= i < |a| && keepA[i] :: a[i] == b[i]
    ensures Pick(a, keepA) == Pick(b, keepB)
  {
    if a != [] {
      PickAgrees(a[1..], keepA[1..], b[1..], keepB[1..]);
    }
  }

  lemma ZeroSample(e: Exp, x: Sequence)
    requires Shaped(x)
    ensures !IsValid(x, 0.0) && SequenceError(e, x, 0.0) == 0.0
  {
    assert forall i | 0 <= i < |TokenWeights(x, 0.0)| :: TokenWeights(x, 0.0)[i] == 0.0;
    SumZero(TokenWeights(x, 0.0));
  }

  /** Masking is a projection, for any masks and any threshold: a second run on its own output changes
      nothing and masks nothing, and what it measures is what the first run measured after masking. */
  lemma MaskingIsProjection(e: Exp, rows: seq<Sequence>, sampleMask: seq<real>, rewards: seq<real>, threshold: Option<real>)
    requires |rows| == |sampleMask| == |rewards| && AllShaped(rows)
    ensures var mask := Passing(Errors(e, rows, sampleMask), sampleMask, threshold);
      var first := MetricsOf(e, rows, sampleMask, rewards, threshold);
      && Passing(Errors(e, rows, mask), mask, threshold) == mask
      && MetricsOf(e, rows, mask, rewards, threshold) == Metrics(first.after, first.after, 0, 0.0)
  {
    var errors, valid := Errors(e, rows, sampleMask), Valid(rows, sampleMask);
    var mask := Passing(errors, sampleMask, threshold);
    var errors', valid' := Errors(e, rows, mask), Valid(rows, mask);
    if threshold.Some? {
      forall i | 0 <= i < |rows|
        ensures valid'[i] == (mask[i] != 0.0 && valid[i])
        ensures errors'[i] == if mask[i] != 0.0 then errors[i] else 0.0
      {
        ZeroSample(e, rows[i]);
      }
      hide SequenceError, IsValid;
      assert Passing(errors', mask, threshold) == mask;
      assert Kept(valid', mask) == valid' == Kept(valid, mask);
      PickAgrees(errors', valid', errors, Kept(valid, mask));
      SumZero(Difference(mask, mask));
      assert Truncate(0.0) == 0;
    }
    hide Summary, Pick, Errors, Valid;
    MetricsFrom(e, rows, sampleMask, rewards, threshold);
    MetricsFrom(e, rows, mask, rewards, threshold);
  }

  /** The sequences masking takes out. */
  function Lost(errors: seq<real>, sampleMask: seq<real>, threshold: real): (lost: seq<bool>)
    requires |errors| == |sampleMask|
    ensures |lost| == |errors|
  {
    seq(|errors|, i requires 0 <= i < |errors| => sampleMask[i] == 1.0 && errors[i] > threshold)
  }

  /** On 0/1 masks the reported count is the number of sequences taken out. */
  lemma MaskedIsCounted(e: Exp, rows: seq<Sequence>, sampleMask: seq<real>, rewards: seq<real>, threshold: real)
    requires |rows| == |sampleMask| == |rewards| && AllShaped(rows) && IsMask(sampleMask)
    ensures MetricsOf(e, rows, sampleMask, rewards, Some(threshold)).numMasked
         == Size(Lost(Errors(e, rows, sampleMask), sampleMask, threshold))
  {
    hide SequenceError;
    var errors := Errors(e, rows, sampleMask);
    var lost := Lost(errors, sampleMask, threshold);
    SizeAsSum(lost);
    assert Difference(sampleMask, Passing(errors, sampleMask, Some(threshold))) == Where(Ones(|lost|), lost);
    assert Truncate(Size(lost) as real) == Size(lost);
  }

  lemma {:induction false} CorrectIsCounted(rewards: seq<real>, difference: seq<real>, correct: seq<bool>)
    requires |rewards| == |difference| == |correct|
    requires forall i | 0 <= i < |rewards| :: correct[i] <==> difference[i] != 0.0 && rewards[i] == 1.0
    ensures CorrectAmong(rewards, difference) == Size(correct)
  {
    if rewards != [] {
      CorrectIsCounted(rewards[1..], difference[1..], correct[1..]);
    }
  }

  /** The sequences taken out that had been answered correctly. */
  function LostCorrect(errors: seq<real>, sampleMask: seq<real>, rewards: seq<real>, threshold: real): (lost: seq<bool>)
    requires |errors| == |sampleMask| == |rewards|
    ensures |lost| == |errors|
  {
    seq(|errors|, i requires 0 <= i < |errors| => Lost(errors, sampleMask, threshold)[i] && rewards[i] == 1.0)
  }

  /** On 0/1 masks the reported share is that of the correct sequences among those taken out, or zero for none. */
  lemma MaskedCorrectShare(e: Exp, rows: seq<Sequence>, sampleMask: seq<real>, rewards: seq<real>, threshold: real)
    requires |rows| == |sampleMask| == |rewards| && AllShaped(rows) && IsMask(sampleMask)
    ensures var errors, m := Errors(e, rows, sampleMask), MetricsOf(e, rows, sampleMask, rewards, Some(threshold));
      var lost, correct := Size(Lost(errors, sampleMask, threshold)), Size(LostCorrect(errors, sampleMask, rewards, threshold));
      m.maskedCorrectPct == if lost == 0 then 0.0 else correct as real / lost as real
  {
    hide SequenceError, Sum;
    var errors := Errors(e, rows, sampleMask);
    MaskedIsCounted(e, rows, sampleMask, rewards, threshold);
    CorrectIsCounted(rewards, Difference(sampleMask, Passing(errors, sampleMask, Some(threshold))),
                     LostCorrect(errors, sampleMask, rewards, threshold));
  }
}
