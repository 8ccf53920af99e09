/** The whole filter: the sort-free path for top-k alone, the chunked path otherwise, and the
    gradient's way back. */
module LogitFilter {
  import opened Permutations
  import opened Wrappers
  import opened Nucleus

  // ------------------------------------------------------- selecting the top k

  /** A selection of the `k` largest, in descending order; which of several equal logits is open. */
  predicate Selects(chosen: seq<nat>, row: seq<Logit>, k: nat) {
    && |chosen| == k
    && (forall i | 0 <= i < k :: chosen[i] < |row|)
    && (forall i, j | 0 <= i < j < k :: chosen[i] != chosen[j] && AtMost(row[chosen[j]], row[chosen[i]]))
    && (forall i, j: nat | 0 <= i < k && j < |row| && j !in chosen :: AtMost(row[j], row[chosen[i]]))
  }

  type Selector = (seq<Logit>, nat) -> seq<nat>

  ghost predicate IsSelector(select: Selector) {
    forall row, k: nat | k <= |row| :: Selects(select(row, k), row, k)
  }

  function Above(row: seq<Logit>, t: Logit): (mask: seq<bool>)
    ensures |mask| == |row|
  {
    seq(|row|, i requires 0 <= i < |row| => !AtMost(row[i], t))
  }

  /** At least `k` logits reach `t`, but fewer than `k` exceed it. */
  predicate IsKthLargest(row: seq<Logit>, k: nat, t: Logit) {
    Size(KeepAtLeast(row, t)) >= k > Size(Above(row, t))
  }

  lemma KthLargestUnique(row: seq<Logit>, k: nat, t: Logit, u: Logit)
    requires IsKthLargest(row, k, t) && IsKthLargest(row, k, u)
    ensures t == u
  {
    if !AtMost(t, u) {
      SizeMonotone(KeepAtLeast(row, t), Above(row, u));
    } else if !AtMost(u, t) {
      SizeMonotone(KeepAtLeast(row, u), Above(row, t));
    }
  }

  lemma {:induction false} SizeWithout(mask: seq<bool>, i: nat)
    requires i < |mask| && mask[i]
    ensures Size(mask) == Size(mask[i := false]) + 1
  {
    if i > 0 {
      SizeWithout(mask[1..], i - 1);
      assert mask[i := false][1..] == mask[1..][i - 1 := false];
    } else {
      assert mask[0 := false][1..] == mask[1..];
    }
  }

  predicate DistinctPositions(chosen: seq<nat>, n: nat) {
    && (forall i | 0 <= i < |chosen| :: chosen[i] < n)
    && (forall i, j | 0 <= i < j < |chosen| :: chosen[i] != chosen[j])
  }

  /** Distinct positions, all kept: at least as many are kept. */
  lemma {:induction false} ChosenWithin(chosen: seq<nat>, mask: seq<bool>)
    requires DistinctPositions(chosen, |mask|) && forall i | 0 <= i < |chosen| :: mask[chosen[i]]
    ensures |chosen| <= Size(mask)
    decreases |chosen|
  {
    if chosen != [] {
      var last := chosen[|chosen| - 1];
      SizeWithout(mask, last);
      ChosenWithin(chosen[..|chosen| - 1], mask[last := false]);
    }
  }

  /** Every kept position is chosen: at most as many are kept. */
  lemma {:induction false} ChosenCovers(chosen: seq<nat>, mask: seq<bool>)
    requires DistinctPositions(chosen, |mask|) && forall j: nat | j < |mask| && mask[j] :: j in chosen
    ensures Size(mask) <= |chosen|
    decreases |chosen|
  {
    if chosen == [] {
      SizeMonotone(mask, Suffix(|mask|, |mask|));
      SuffixSize(|mask|, |mask|);
    } else {
      var init, last := chosen[..|chosen| - 1], chosen[|chosen| - 1];
      if mask[last] {
        SizeWithout(mask, last);
      } else {
        assert mask[last := false] == mask;
      }
      var without := mask[last := false];
      forall j: nat | j < |mask| && without[j]
        ensures j in init
      {
        assert j in chosen;
      }
      ChosenCovers(init, without);
    }
  }

  /** The last of the selected values is the k-th largest. */
  lemma SelectedIsKth(chosen: seq<nat>, row: seq<Logit>, k: nat)
    requires 0 < k && Selects(chosen, row, k)
    ensures IsKthLargest(row, k, row[chosen[k - 1]])
  {
    var t := row[chosen[k - 1]];
    ChosenWithin(chosen, KeepAtLeast(row, t));
    var init := chosen[..k - 1];
    forall j: nat | j < |row| && Above(row, t)[j]
      ensures j in init
    {
      assert j in chosen;
    }
    ChosenCovers(init, Above(row, t));
  }

  /** So is the value at that place of the sorted row. */
  lemma SortedIsKth(order: seq<nat>, row: seq<Logit>, k: nat)
    requires Sorts(order, row) && 0 < k <= |row|
    ensures IsKthLargest(row, k, Permute(row, order)[|row| - k])
  {
    var s := Permute(row, order);
    var t := s[|row| - k];
    PermutedSize(KeepAtLeast(row, t), order);
    PermutedSize(Above(row, t), order);
    assert Permute(KeepAtLeast(row, t), order) == KeepAtLeast(s, t);
    assert Permute(Above(row, t), order) == Above(s, t);
    SuffixSize(|row|, |row| - k);
    SizeMonotone(Suffix(|row|, |row| - k), KeepAtLeast(s, t));
    SuffixSize(|row|, |row| - k + 1);
    SizeMonotone(Above(s, t), Suffix(|row|, |row| - k + 1));
  }

  /** However the sort orders ties, the same threshold applies and equally many tokens are kept. */
  lemma TieOrderKeepsTheCount(w: Weight, order: seq<nat>, order': seq<nat>, row: seq<Logit>, topK: Option<int>, topP: real)
    requires IsWeight(w) && Sorts(order, row) && Sorts(order', row)
    requires TopKFits(topK, |row|) && HasFinite(row) && 0.0 < topP < 1.0
    ensures Threshold(Permute(row, order), topK) == Threshold(Permute(row, order'), topK)
    ensures Size(RowMask(w, order, row, topK, topP)) == Size(RowMask(w, order', row, topK, topP))
  {
    hide IsNucleus, RowMask, Size;
    if NeedTopK(topK) {
      SortedIsKth(order, row, topK.value);
      SortedIsKth(order', row, topK.value);
      KthLargestUnique(row, topK.value, Threshold(Permute(row, order), topK), Threshold(Permute(row, order'), topK));
    }
    RowMaskIsNucleus(w, order, row, topK, topP);
    RowMaskIsNucleus(w, order', row, topK, topP);
    NucleiAreEquallyLarge(w, AfterTopK(row, Threshold(Permute(row, order), topK)), topP,
                          RowMask(w, order, row, topK, topP), RowMask(w, order', row, topK, topP));
  }

  /** Both filters at once, whatever the order of ties: the mask is a nucleus of the row after top-k, whose threshold `t`
      is the k-th largest logit; no `top_k`, or one that is not positive, takes nothing out. */
  lemma RowMaskIsTopKNucleus(w: Weight, order: seq<nat>, row: seq<Logit>, topK: Option<int>, topP: real) returns (t: Logit)
    requires IsWeight(w) && Sorts(order, row) && HasFinite(row) && 0.0 < topP < 1.0
    requires topK.Some? && topK.value > 0 ==> topK.value <= |row|
    ensures IsNucleus(w, AfterTopK(row, t), topP, RowMask(w, order, row, topK, topP))
    ensures topK.Some? && topK.value > 0 ==> IsKthLargest(row, topK.value, t)
    ensures topK.None? || topK.value <= 0 ==> AfterTopK(row, t) == row
  {
    t := Threshold(Permute(row, order), topK);
    RowMaskIsNucleus(w, order, row, topK, topP);
    hide IsNucleus, RowMask, Size;
    if topK.Some? && topK.value > 0 {
      SortedIsKth(order, row, topK.value);
    } else {
      assert AfterTopK(row, NegInf) == row;
    }
  }

  // ------------------------------------------------------------- top-k alone

  /** The mask of top-k on a row in its own order. */
  function TopKOnlyMask(select: Selector, row: seq<Logit>, k: nat): (mask: seq<bool>)
    requires 0 < k <= |row| && Selects(select(row, k), row, k)
    ensures |mask| == |row|
  {
    KeepAtLeast(row, row[select(row, k)[k - 1]])
  }

  /** The sort-free path computes the mask of the sorted threshold. */
  lemma TopKOnlyMatchesSort(select: Selector, order: seq<nat>, row: seq<Logit>, k: nat)
    requires 0 < k <= |row| && Selects(select(row, k), row, k) && Sorts(order, row)
    ensures TopKOnlyMask(select, row, k)
         == Unsort(KeepAtLeast(Permute(row, order), Threshold(Permute(row, order), Some(k))), order)
  {
    var s := Permute(row, order);
    var t := Threshold(s, Some(k));
    SelectedIsKth(select(row, k), row, k);
    SortedIsKth(order, row, k);
    KthLargestUnique(row, k, row[select(row, k)[k - 1]], t);
    assert KeepAtLeast(s, t) == Permute(KeepAtLeast(row, t), order);
    UnsortUnique(KeepAtLeast(row, t), order);
  }

  /** Top-k keeps at least `k` tokens, and exactly `k` unless the next one ties with the last. */
  lemma TopKCount(select: Selector, order: seq<nat>, row: seq<Logit>, k: nat)
    requires 0 < k <= |row| && Selects(select(row, k), row, k) && Sorts(order, row)
    ensures Size(TopKOnlyMask(select, row, k)) >= k
    ensures var s := Permute(row, order);
      Size(TopKOnlyMask(select, row, k)) == k <==> k == |row| || s[|row| - k - 1] != s[|row| - k]
  {
    SelectedIsKth(select(row, k), row, k);
    SortedIsKth(order, row, k);
    var s := Permute(row, order);
    var t := s[|row| - k];
    KthLargestUnique(row, k, row[select(row, k)[k - 1]], t);
    var mask := KeepAtLeast(row, t);
    PermutedSize(mask, order);
    assert Permute(mask, order) == KeepAtLeast(s, t);
    SuffixSize(|row|, |row| - k);
    if k == |row| || s[|row| - k - 1] != t {
      assert KeepAtLeast(s, t) == Suffix(|row|, |row| - k) by {
        if k < |row| {
          assert AtMost(s[|row| - k - 1], t);
          assert !AtMost(t, s[|row| - k - 1]);
        }
      }
    } else {
      assert KeepAtLeast(s, t)[|row| - k - 1];
      SizeMonotone(Suffix(|row|, |row| - k), KeepAtLeast(s, t));
    }
  }

  /** Filtering again with the same `k` changes neither logits nor mask. */
  lemma TopKIdempotent(select: Selector, row: seq<Logit>, k: nat)
    requires 0 < k <= |row| && IsSelector(select)
    ensures var mask := TopKOnlyMask(select, row, k);
      var again := TopKOnlyMask(select, Masked(row, mask), k);
      again == mask && Masked(Masked(row, mask), again) == Masked(row, mask)
  {
    var t := row[select(row, k)[k - 1]];
    var filtered := AfterTopK(row, t);
    SelectedIsKth(select(row, k), row, k);
    SelectedIsKth(select(filtered, k), filtered, k);
    if t.Fin? {
      assert KeepAtLeast(filtered, t) == KeepAtLeast(row, t);
      assert Above(filtered, t) == Above(row, t);
    } else {
      assert filtered == row;
    }
    KthLargestUnique(filtered, k, filtered[select(filtered, k)[k - 1]], t);
  }

  // ------------------------------------------------------------- whole tensor

  datatype Outcome = Failed | Filtered(logits: seq<seq<Logit>>, mask: Option<seq<seq<bool>>>)

  predicate HasWidth(logits: seq<seq<Logit>>, vocab: nat) {
    forall i | 0 <= i < |logits| :: |logits[i]| == vocab
  }

  /** Row by row, without any chunks. */
  ghost function RowWise(w: Weight, sorter: Sorter, logits: seq<seq<Logit>>, topK: Option<int>, topP: real): Outcome
    requires IsSorter(sorter) && forall i | 0 <= i < |logits| :: TopKFits(topK, |logits[i]|)
  {
    var masks := RowMasks(w, sorter, logits, topK, topP);
    Filtered(MaskedRows(logits, masks), Some(masks))
  }

  ghost function RowMasks(w: Weight, sorter: Sorter, logits: seq<seq<Logit>>, topK: Option<int>, topP: real)
    : (masks: seq<seq<bool>>)
    requires IsSorter(sorter) && forall i | 0 <= i < |logits| :: TopKFits(topK, |logits[i]|)
    ensures |masks| == |logits| && forall i | 0 <= i < |masks| :: |masks[i]| == |logits[i]|
  {
    seq(|logits|, i requires 0 <= i < |logits| =>
      assert Sorts(sorter(logits[i]), logits[i]);
      RowMask(w, sorter(logits[i]), logits[i], topK, topP))
  }

  function MaskedRows(logits: seq<seq<Logit>>, masks: seq<seq<bool>>): (rows: seq<seq<Logit>>)
    requires |masks| == |logits| && forall i | 0 <= i < |masks| :: |masks[i]| == |logits[i]|
    ensures |rows| == |logits|
  {
    seq(|logits|, i requires 0 <= i < |logits| => Masked(logits[i], masks[i]))
  }

  method ApplyTopKOnly(select: Selector, logits: seq<seq<Logit>>, vocab: nat, topK: Option<int>) returns (r: Outcome)
    requires IsSelector(select) && HasWidth(logits, vocab)
    ensures !NeedTopK(topK) ==> r == Filtered(logits, None)
    ensures NeedTopK(topK) ==> (r == Failed <==> topK.value > vocab)
    ensures NeedTopK(topK) && topK.value <= vocab ==>
      && r.mask.Some? && |r.mask.value| == |logits|
      && (forall i | 0 <= i < |logits| :: r.mask.value[i] == TopKOnlyMask(select, logits[i], topK.value))
      && r.logits == MaskedRows(logits, r.mask.value)
  {
    if !NeedTopK(topK) { return Filtered(logits, None); }
    if topK.value > vocab { return Failed; }
    var k: nat := topK.value;
    assert forall i | 0 <= i < |logits| :: Selects(select(logits[i], k), logits[i], k);
    var masks := seq(|logits|, i requires 0 <= i < |logits| => TopKOnlyMask(select, logits[i], k));
    r := Filtered(MaskedRows(logits, masks), Some(masks));
  }

  /** The chunked path. Whatever the chunk size, the outcome is the row-by-row one. */
  method ApplyTopKTopP(w: Weight, sorter: Sorter, select: Selector, logits: seq<seq<Logit>>, vocab: nat,
                       topK: Option<int>, topP: real, chunkSize: Option<nat>) returns (r: Outcome)
    requires IsSorter(sorter) && IsSelector(select) && HasWidth(logits, vocab)
    ensures topP == 1.0 && !NeedTopK(topK) ==> r == Filtered(logits, None)
    ensures topP == 1.0 && NeedTopK(topK) && topK.value <= vocab ==>
      && r.Filtered? && r.mask.Some? && |r.mask.value| == |logits|
      && (forall i | 0 <= i < |logits| :: r.mask.value[i] == TopKOnlyMask(select, logits[i], topK.value))
      && r.logits == MaskedRows(logits, r.mask.value)
    ensures topP != 1.0 && ChunkOf(chunkSize, |logits|) > 0 && (logits == [] || TopKFits(topK, vocab)) ==>
      r == RowWise(w, sorter, logits, topK, topP)
    ensures r == Failed <==>
      if topP == 1.0 then !TopKFits(topK, vocab)
      else ChunkOf(chunkSize, |logits|) == 0 || (logits != [] && !TopKFits(topK, vocab))
  {
    hide RowMask, Masked, RowMasks, MaskedRows, Unsort, Sorts;
    if topP == 1.0 {
      r := ApplyTopKOnly(select, logits, vocab, topK);
      return;
    }
    var numTokens := |logits|;
    var chunk := ChunkOf(chunkSize, numTokens);
    if chunk == 0 { return Failed; }
    var filteredLogits := new seq<Logit>[numTokens];
    var keepMask := new seq<bool>[numTokens];
    var startIdx := 0;
    while startIdx < numTokens
      invariant 0 <= startIdx <= numTokens
      invariant startIdx > 0 ==> TopKFits(topK, vocab)
      invariant forall i | 0 <= i < startIdx :: RowDone(w, sorter, logits[i], topK, topP, filteredLogits[i], keepMask[i])
    {
      var endIdx := if startIdx + chunk < numTokens then startIdx + chunk else numTokens;
      if NeedTopK(topK) && topK.value > vocab { return Failed; }
      for i := startIdx to endIdx
        invariant forall j | 0 <= j < i :: RowDone(w, sorter, logits[j], topK, topP, filteredLogits[j], keepMask[j])
      {
        assert Sorts(sorter(logits[i]), logits[i]);
        var filtered, mask := FilterRow(w, sorter, logits[i], topK, topP);
        filteredLogits[i], keepMask[i] := filtered, mask;
      }
      startIdx := endIdx;
    }
    r := Filtered(filteredLogits[..], Some(keepMask[..]));
    if logits == [] || TopKFits(topK, vocab) {
      AllRowsDone(w, sorter, logits, topK, topP, filteredLogits[..], keepMask[..]);
    }
  }

  lemma AllRowsDone(w: Weight, sorter: Sorter, logits: seq<seq<Logit>>, topK: Option<int>, topP: real,
                    filtered: seq<seq<Logit>>, masks: seq<seq<bool>>)
    requires IsSorter(sorter) && forall i | 0 <= i < |logits| :: TopKFits(topK, |logits[i]|)
    requires |filtered| == |masks| == |logits|
    requires forall i | 0 <= i < |logits| :: RowDone(w, sorter, logits[i], topK, topP, filtered[i], masks[i])
    ensures Filtered(filtered, Some(masks)) == RowWise(w, sorter, logits, topK, topP)
  {
    hide RowMask, Masked, Sorts;
    assert masks == RowMasks(w, sorter, logits, topK, topP);
    assert filtered == MaskedRows(logits, masks);
  }

  /** The rows of a chunk, all of them when no size is given. */
  function ChunkOf(chunkSize: Option<nat>, numTokens: nat): nat {
    if chunkSize.Some? then chunkSize.value else numTokens
  }

  ghost predicate RowDone(w: Weight, sorter: Sorter, row: seq<Logit>, topK: Option<int>, topP: real,
                          filtered: seq<Logit>, mask: seq<bool>) {
    && Sorts(sorter(row), row) && TopKFits(topK, |row|)
    && mask == RowMask(w, sorter(row), row, topK, topP)
    && filtered == Masked(row, mask)
  }

  // ---------------------------------------------------------------- backward

  /** The gradient for the logits of a row: none through a filtered position. */
  function RowBackward(mask: seq<bool>, grad: seq<real>): (g: seq<real>)
    requires |mask| == |grad|
    ensures |g| == |grad|
  {
    seq(|grad|, i requires 0 <= i < |grad| => if mask[i] then grad[i] else 0.0)
  }

  predicate MatrixLike(grad: seq<seq<real>>, logits: seq<seq<Logit>>) {
    |grad| == |logits| && forall i | 0 <= i < |grad| :: |grad[i]| == |logits[i]|
  }

  /** What the forward pass returned, and for what. */
  ghost predicate FilteredFrom(logits: seq<seq<Logit>>, r: Outcome) {
    r.Filtered? && if r.mask.None? then r.logits == logits
    else && |r.mask.value| == |logits| && (forall i | 0 <= i < |logits| :: |r.mask.value[i]| == |logits[i]|)
         && r.logits == MaskedRows(logits, r.mask.value)
  }

  /** The autograd function: `Forward` saves its mask, `Backward` uses it. */
  class TopKTopPFunction {
    var keepMask: Option<seq<seq<bool>>>
    ghost var input: seq<seq<Logit>>
    ghost var output: Outcome

    /** The saved mask is the one the forward pass returned. */
    ghost predicate Valid()
      reads this
    {
      FilteredFrom(input, output) && keepMask == output.mask
    }

    method Forward(w: Weight, sorter: Sorter, select: Selector, logits: seq<seq<Logit>>, vocab: nat,
                   topK: Option<int>, topP: real, chunkSize: Option<nat>) returns (r: Outcome)
      requires IsSorter(sorter) && IsSelector(select) && HasWidth(logits, vocab)
      modifies this
      ensures r.Filtered? ==> Valid() && input == logits && output == r
      ensures topP != 1.0 && ChunkOf(chunkSize, |logits|) > 0 && (logits == [] || TopKFits(topK, vocab)) ==>
        r == RowWise(w, sorter, logits, topK, topP)
    {
      r := ApplyTopKTopP(w, sorter, select, logits, vocab, topK, topP, chunkSize);
      if r.Filtered? {
        keepMask := r.mask;
        input, output := logits, r;
      }
    }

    /** At every finite logit the gradient passes if the forward pass let the logit through, and is zero if
        it filtered it. */
    method Backward(grad: seq<seq<real>>) returns (g: seq<seq<real>>)
      requires Valid() && MatrixLike(grad, input)
      ensures MatrixLike(g, input)
      ensures forall i, j | 0 <= i < |g| && 0 <= j < |g[i]| && input[i][j].Fin? ::
        g[i][j] == if output.logits[i][j] == input[i][j] then grad[i][j] else 0.0
      ensures forall i, j | 0 <= i < |g| && 0 <= j < |g[i]| && input[i][j].Fin? ::
        output.logits[i][j] != input[i][j] ==> output.logits[i][j] == NegInf
    {
      g := grad;
      if keepMask.Some? {
        var masks := keepMask.value;
        g := seq(|grad|, i requires 0 <= i < |grad| && |masks| == |grad| && |masks[i]| == |grad[i]| => RowBackward(masks[i], grad[i]));
      }
    }
  }
}
