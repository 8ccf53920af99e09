/** Top-k and top-p filtering of one row of logits: sort, threshold, cumulative mass, scatter back.
    The sorted form is the code's; the theorems speak about the row in its own order. */
module Nucleus {
  import opened Arithmetic
  import opened Permutations
  import opened Wrappers

  datatype Logit = NegInf | Fin(v: real)

  predicate AtMost(a: Logit, b: Logit) {
    a.NegInf? || (b.Fin? && a.v <= b.v)
  }

  /** An unnormalised `exp`: zero for minus infinity, positive and monotone otherwise. */
  type Weight = Logit -> real

  ghost predicate IsWeight(w: Weight) {
    && w(NegInf) == 0.0
    && (forall x: real :: w(Fin(x)) > 0.0)
    && (forall x: real, y: real | x <= y :: w(Fin(x)) <= w(Fin(y)))
  }

  function Weights(w: Weight, s: seq<Logit>): (t: seq<real>)
    ensures |t| == |s|
  {
    seq(|s|, i requires 0 <= i < |s| => w(s[i]))
  }

  predicate Sorted(s: seq<Logit>) {
    forall i, j | 0 <= i <= j < |s| :: AtMost(s[i], s[j])
  }

  predicate Sorts(order: seq<nat>, row: seq<Logit>) {
    IsPermutation(order, |row|) && Sorted(Permute(row, order))
  }

  /** A sort of rows; which of two equal logits comes first is left open. */
  type Sorter = seq<Logit> -> seq<nat>

  ghost predicate IsSorter(sorter: Sorter) {
    forall row :: Sorts(sorter(row), row)
  }

  // ------------------------------------------------------------------ masks

  predicate NeedTopK(topK: Option<int>) {
    topK.Some? && topK.value > 0
  }

  /** `top_k`, where filtering by it is needed, fits the vocabulary. */
  predicate TopKFits(topK: Option<int>, vocab: nat) {
    NeedTopK(topK) ==> topK.value <= vocab
  }

  function KeepAtLeast(s: seq<Logit>, threshold: Logit): (mask: seq<bool>)
    ensures |mask| == |s|
  {
    seq(|s|, i requires 0 <= i < |s| => AtMost(threshold, s[i]))
  }

  function Masked(s: seq<Logit>, mask: seq<bool>): (t: seq<Logit>)
    requires |mask| == |s|
    ensures |t| == |s|
  {
    seq(|s|, i requires 0 <= i < |s| => if mask[i] then s[i] else NegInf)
  }

  /** The least value that top-k lets through, read off the sorted row. */
  function Threshold(s: seq<Logit>, topK: Option<int>): Logit
    requires TopKFits(topK, |s|)
  {
    if NeedTopK(topK) then s[|s| - topK.value] else NegInf
  }

  function AfterTopK(s: seq<Logit>, threshold: Logit): (t: seq<Logit>)
    ensures |t| == |s|
  {
    Masked(s, KeepAtLeast(s, threshold))
  }

  /** The probability mass up to and including position `i` exceeds `1 - topP`. In a row of minus
      infinities every comparison is false, as it is with the NaN of the code. */
  predicate Passes(w: Weight, s: seq<Logit>, topP: real, i: nat)
    requires i < |s|
  {
    var total := Sum(Weights(w, s));
    total > 0.0 && Sum(Weights(w, s)[..i + 1]) / total > 1.0 - topP
  }

  function TopPMask(w: Weight, s: seq<Logit>, topP: real): (mask: seq<bool>)
    ensures |mask| == |s|
  {
    seq(|s|, i requires 0 <= i < |s| => i == |s| - 1 || Passes(w, s, topP, i))
  }

  function And(a: seq<bool>, b: seq<bool>): (c: seq<bool>)
    requires |a| == |b|
    ensures |c| == |a|
  {
    seq(|a|, i requires 0 <= i < |a| => a[i] && b[i])
  }

  /** The mask of a sorted row: both conditions, top-p judged after top-k. */
  function SortedMask(w: Weight, s: seq<Logit>, topK: Option<int>, topP: real): (mask: seq<bool>)
    requires TopKFits(topK, |s|)
    ensures |mask| == |s|
  {
    var t := Threshold(s, topK);
    And(KeepAtLeast(s, t), TopPMask(w, AfterTopK(s, t), topP))
  }

  /** Back to the original order. */
  ghost function Unsort<T>(t: seq<T>, order: seq<nat>): (s: seq<T>)
    requires IsPermutation(order, |t|)
    ensures |s| == |t| && Permute(s, order) == t
  {
    var s := seq(|t|, j requires 0 <= j < |t| => t[Position(order, j)]);
    assert forall i | 0 <= i < |t| :: Position(order, order[i]) == i;
    s
  }

  ghost function Position(order: seq<nat>, j: nat): (i: nat)
    requires IsPermutation(order, |order|) && j < |order|
    ensures i < |order| && order[i] == j
  {
    assert j in order;
    var i :| 0 <= i < |order| && order[i] == j;
    i
  }

  lemma UnsortUnique<T>(s: seq<T>, order: seq<nat>)
    requires IsPermutation(order, |s|)
    ensures Unsort(Permute(s, order), order) == s
  {
    var u := Unsort(Permute(s, order), order);
    forall j: nat | j < |s|
      ensures u[j] == s[j]
    {
      var i := Position(order, j);
      assert Permute(u, order)[i] == Permute(s, order)[i];
    }
  }

  /** The mask of a row in its own order. */
  ghost function RowMask(w: Weight, order: seq<nat>, row: seq<Logit>, topK: Option<int>, topP: real): (mask: seq<bool>)
    requires IsPermutation(order, |row|) && TopKFits(topK, |row|)
    ensures |mask| == |row|
  {
    Unsort(SortedMask(w, Permute(row, order), topK, topP), order)
  }

  // -------------------------------------------------------------- operations

  method MaskedFill(a: array<Logit>, mask: seq<bool>)
    requires |mask| == a.Length
    modifies a
    ensures a[..] == Masked(old(a[..]), mask)
  {
    for i := 0 to a.Length
      invariant forall j | 0 <= j < a.Length :: a[j] == if j < i && !mask[j] then NegInf else old(a[j])
    {
      if !mask[i] {
        a[i] := NegInf;
      }
    }
  }

  /** Softmax and cumulative sum of a sorted row, compared with `1 - topP`; the last position always stays. */
  method CumulativeMask(w: Weight, s: seq<Logit>, topP: real) returns (mask: seq<bool>)
    ensures mask == TopPMask(w, s, topP)
  {
    ghost var weights := Weights(w, s);
    var total := 0.0;
    for i := 0 to |s|
      invariant total == Sum(weights[..i])
    {
      SumLast(weights[..i + 1]);
      assert weights[..i + 1][..i] == weights[..i];
      total := total + w(s[i]);
    }
    assert weights[..|s|] == weights;
    var keep := new bool[|s|];
    var probsSum := 0.0;
    for i := 0 to |s|
      invariant total > 0.0 ==> probsSum == Sum(weights[..i]) / total
      invariant forall j | 0 <= j < i :: keep[j] == Passes(w, s, topP, j)
    {
      SumLast(weights[..i + 1]);
      assert weights[..i + 1][..i] == weights[..i];
      if total > 0.0 {
        QuotientSum(Sum(weights[..i]), w(s[i]), total);
        probsSum := probsSum + w(s[i]) / total;
      }
      keep[i] := total > 0.0 && probsSum > 1.0 - topP;
    }
    if |s| > 0 {
      keep[|s| - 1] := true;
    }
    mask := keep[..];
  }

  method Scatter<T>(src: seq<T>, order: seq<nat>) returns (result: seq<T>)
    requires IsPermutation(order, |src|)
    ensures result == Unsort(src, order)
  {
    var a := new T[|src|](i requires 0 <= i < |src| => src[i]);
    for i := 0 to |src|
      invariant forall j | 0 <= j < i :: a[order[j]] == src[j]
    {
      a[order[i]] := src[i];
    }
    result := a[..];
    assert Permute(result, order) == src;
    UnsortUnique(result, order);
  }

  /** One row through the pipeline. The code's two outputs agree: a logit survives exactly where the
      mask is true, and is minus infinity elsewhere. */
  method FilterRow(w: Weight, sorter: Sorter, row: seq<Logit>, topK: Option<int>, topP: real)
    returns (filtered: seq<Logit>, mask: seq<bool>)
    requires Sorts(sorter(row), row) && TopKFits(topK, |row|)
    ensures mask == RowMask(w, sorter(row), row, topK, topP)
    ensures filtered == Masked(row, mask)
  {
    var order := sorter(row);
    ghost var sorted := Permute(row, order);
    var logitsSort := new Logit[|row|](i requires 0 <= i < |row| => row[order[i]]);
    assert logitsSort[..] == sorted;
    var topKMask := KeepAtLeast(logitsSort[..], NegInf);
    if NeedTopK(topK) {
      topKMask := KeepAtLeast(logitsSort[..], logitsSort[|row| - topK.value]);
      MaskedFill(logitsSort, topKMask);
    } else {
      assert AfterTopK(sorted, NegInf) == sorted;
    }
    var topPMask := CumulativeMask(w, logitsSort[..], topP);
    MaskedFill(logitsSort, topPMask);
    filtered := Scatter(logitsSort[..], order);
    var both := And(topKMask, topPMask);
    mask := Scatter(both, order);
    assert logitsSort[..] == Masked(sorted, both);
    UnsortMasked(row, order, both);
  }

  lemma UnsortMasked(row: seq<Logit>, order: seq<nat>, mask: seq<bool>)
    requires IsPermutation(order, |row|) && |mask| == |row|
    ensures Unsort(Masked(Permute(row, order), mask), order) == Masked(row, Unsort(mask, order))
  {
    var original := Unsort(mask, order);
    assert Permute(Masked(row, original), order) == Masked(Permute(row, order), Permute(original, order));
    UnsortUnique(Masked(row, original), order);
  }

  // ---------------------------------------------------------- sorted nucleus

  lemma WeightsAreNonNegative(w: Weight, s: seq<Logit>)
    requires IsWeight(w)
    ensures NonNegative(Weights(w, s))
  {
    forall i | 0 <= i < |s|
      ensures w(s[i]) >= 0.0
    {
      if s[i].Fin? {
        assert w(Fin(s[i].v)) > 0.0;
      }
    }
  }

  lemma WeightsAscend(w: Weight, s: seq<Logit>)
    requires IsWeight(w) && Sorted(s)
    ensures Ascending(Weights(w, s))
  {
    WeightsAreNonNegative(w, s);
    forall i, j | 0 <= i <= j < |s|
      ensures Weights(w, s)[i] <= Weights(w, s)[j]
    {
      assert AtMost(s[i], s[j]);
      if s[i].Fin? {
        assert w(Fin(s[i].v)) <= w(Fin(s[j].v));
      }
    }
  }

  lemma AfterTopKSorted(s: seq<Logit>, threshold: Logit)
    requires Sorted(s)
    ensures Sorted(AfterTopK(s, threshold))
  {}

  lemma PrefixGrows(t: seq<real>, i: nat, j: nat)
    requires NonNegative(t) && i <= j <= |t|
    ensures Sum(t[..i]) <= Sum(t[..j])
  {
    SumSplit(t[..j], i);
    assert t[..j][..i] == t[..i];
    SumNonNegative(t[..j][i..]);
  }

  /** `p` of a total. */
  function Portion(p: real, total: real): real {
    p * total
  }

  lemma PortionInside(p: real, total: real)
    requires 0.0 < p < 1.0 && total > 0.0
    ensures 0.0 < Portion(p, total) < total
  {
    hide Portion;
    PortionPositive(p, total);
    PortionSmaller(p, total);
  }

  lemma PortionPositive(p: real, total: real)
    requires p > 0.0 && total > 0.0
    ensures Portion(p, total) > 0.0
  {}

  lemma PortionSmaller(p: real, total: real)
    requires p < 1.0 && total > 0.0
    ensures Portion(p, total) < total
  {
    SmallerProduct(p, 1.0, total);
  }

  lemma PassesIff(w: Weight, s: seq<Logit>, topP: real, i: nat)
    requires i < |s|
    ensures Passes(w, s, topP, i) <==>
      var total := Sum(Weights(w, s));
      total > 0.0 && Sum(Weights(w, s)[..i + 1]) > total - Portion(topP, total)
  {
    var total := Sum(Weights(w, s));
    if total > 0.0 {
      Cross(Sum(Weights(w, s)[..i + 1]), total, 1.0 - topP);
      assert (1.0 - topP) * total == total - Portion(topP, total);
    }
  }

  lemma Cross(c: real, t: real, q: real)
    requires t > 0.0
    ensures c / t > q <==> c > q * t
  {
    var r := c / t;
    assert c == r * t;
    if r > q {
      SmallerProduct(q, r, t);
    } else if r < q {
      SmallerProduct(r, q, t);
    }
  }

  /** Top-p keeps the end of a sorted row, from the first position that passes. */
  lemma TopPIsSuffix(w: Weight, s: seq<Logit>, topP: real) returns (from: nat)
    requires IsWeight(w) && s != []
    ensures from < |s| && TopPMask(w, s, topP) == Suffix(|s|, from)
    ensures from == |s| - 1 || Passes(w, s, topP, from)
    ensures from > 0 ==> !Passes(w, s, topP, from - 1)
  {
    WeightsAreNonNegative(w, s);
    from := 0;
    while from < |s| - 1 && !Passes(w, s, topP, from)
      invariant from < |s|
      invariant forall i: nat | i < from :: !Passes(w, s, topP, i)
    {
      from := from + 1;
    }
    forall i: nat | from <= i < |s| - 1
      ensures Passes(w, s, topP, i)
    {
      var t := Weights(w, s);
      PrefixGrows(t, from + 1, i + 1);
      PassesIff(w, s, topP, from);
      PassesIff(w, s, topP, i);
    }
  }

  /** On a sorted row with some mass: the suffix holds at least `topP` of it, and the suffix
      without its first position holds less. */
  lemma SortedNucleus(w: Weight, s: seq<Logit>, topP: real) returns (from: nat)
    requires IsWeight(w) && Sum(Weights(w, s)) > 0.0 && 0.0 < topP < 1.0
    ensures from < |s| && TopPMask(w, s, topP) == Suffix(|s|, from)
    ensures Sum(Weights(w, s)[from..]) >= Portion(topP, Sum(Weights(w, s))) > Sum(Weights(w, s)[from + 1..])
  {
    hide Passes, Portion, Weights;
    var t := Weights(w, s);
    var total := Sum(t);
    PortionInside(topP, total);
    from := TopPIsSuffix(w, s, topP);
    PassesIff(w, s, topP, from);
    SumSplit(t, from);
    SumSplit(t, from + 1);
    if from > 0 {
      PassesIff(w, s, topP, from - 1);
    }
    if from == |s| - 1 {
      assert t[from + 1..] == [];
    }
  }

  // ---------------------------------------------------------------- theorems

  function Mass(w: Weight, row: seq<Logit>, mask: seq<bool>): real
    requires |mask| == |row|
  {
    Sum(Where(Weights(w, row), mask))
  }

  function TotalMass(w: Weight, row: seq<Logit>): real {
    Sum(Weights(w, row))
  }

  /** No dropped token is above a kept one. */
  predicate TopSegment(row: seq<Logit>, mask: seq<bool>)
    requires |mask| == |row|
  {
    forall a, b | 0 <= a < |row| && 0 <= b < |row| && mask[a] && !mask[b] :: AtMost(row[b], row[a])
  }

  /** The nucleus: a top segment that carries at least `p` of the mass, with as few tokens as
      any set that does. */
  ghost predicate IsNucleus(w: Weight, row: seq<Logit>, p: real, mask: seq<bool>)
    requires |mask| == |row|
  {
    && TopSegment(row, mask)
    && Mass(w, row, mask) >= Portion(p, TotalMass(w, row))
    && forall other: seq<bool> | |other| == |row| && Mass(w, row, other) >= Portion(p, TotalMass(w, row)) ::
         Size(mask) <= Size(other)
  }

  predicate HasFinite(row: seq<Logit>) {
    exists j :: 0 <= j < |row| && row[j].Fin?
  }

  /** After top-k, a position that top-k dropped cannot pass: taking both masks is taking top-p's. */
  lemma TopKCollapse(w: Weight, s: seq<Logit>, topK: Option<int>, topP: real)
    requires IsWeight(w) && Sorted(s) && TopKFits(topK, |s|) && 0.0 < topP < 1.0
    ensures SortedMask(w, s, topK, topP) == TopPMask(w, AfterTopK(s, Threshold(s, topK)), topP)
  {
    var t := Threshold(s, topK);
    var after := AfterTopK(s, t);
    forall i: nat | i < |s| - 1 && !AtMost(t, s[i])
      ensures !Passes(w, after, topP, i)
    {
      assert forall j | 0 <= j <= i :: AtMost(s[j], s[i]) && after[j] == NegInf;
      SumZero(Weights(w, after)[..i + 1]);
    }
  }

  lemma MassPermuted(w: Weight, row: seq<Logit>, mask: seq<bool>, order: seq<nat>)
    requires |mask| == |row| && IsPermutation(order, |row|)
    ensures Mass(w, row, mask) == Mass(w, Permute(row, order), Permute(mask, order))
    ensures TotalMass(w, row) == TotalMass(w, Permute(row, order))
  {
    PermuteWhere(Weights(w, row), mask, order);
    PermutedSum(Weights(w, row), order);
    assert Permute(Weights(w, row), order) == Weights(w, Permute(row, order));
  }

  /** On a sorted row, the suffix found by top-p is a nucleus. */
  lemma SortedIsNucleus(w: Weight, s: seq<Logit>, topP: real)
    requires IsWeight(w) && Sorted(s) && TotalMass(w, s) > 0.0 && 0.0 < topP < 1.0
    ensures IsNucleus(w, s, topP, TopPMask(w, s, topP)) && Size(TopPMask(w, s, topP)) > 0
  {
    hide Portion, Sum, TopPMask, Weights;
    var t := Weights(w, s);
    var from := SortedNucleus(w, s, topP);
    SuffixSum(t, from);
    SuffixSize(|s|, from);
    WeightsAscend(w, s);
    WeightsAreNonNegative(w, s);
    forall other: seq<bool> | |other| == |s| && Size(other) < |s| - from
      ensures Mass(w, s, other) < Portion(topP, TotalMass(w, s))
    {
      FewerIsLess(t, other, from);
    }
  }

  lemma NucleusPermuted(w: Weight, row: seq<Logit>, p: real, mask: seq<bool>, order: seq<nat>)
    requires |mask| == |row| && IsPermutation(order, |row|)
    requires IsNucleus(w, Permute(row, order), p, Permute(mask, order))
    ensures IsNucleus(w, row, p, mask)
  {
    hide Portion, Mass, TotalMass, Size;
    var s, m := Permute(row, order), Permute(mask, order);
    MassPermuted(w, row, mask, order);
    PermutedSize(mask, order);
    forall a: nat, b: nat | a < |row| && b < |row| && mask[a] && !mask[b]
      ensures AtMost(row[b], row[a])
    {
      assert s[Position(order, a)] == row[a] && m[Position(order, a)];
      assert s[Position(order, b)] == row[b] && !m[Position(order, b)];
    }
    forall other: seq<bool> | |other| == |row| && Mass(w, row, other) >= Portion(p, TotalMass(w, row))
      ensures Size(mask) <= Size(other)
    {
      MassPermuted(w, row, other, order);
      PermutedSize(other, order);
      assert |Permute(other, order)| == |s|;
    }
  }

  lemma AfterTopKPermuted(row: seq<Logit>, order: seq<nat>, threshold: Logit)
    requires IsPermutation(order, |row|)
    ensures Permute(AfterTopK(row, threshold), order) == AfterTopK(Permute(row, order), threshold)
  {}

  lemma SomeMass(w: Weight, row: seq<Logit>)
    requires IsWeight(w) && HasFinite(row)
    ensures TotalMass(w, row) > 0.0
  {
    var j :| 0 <= j < |row| && row[j].Fin?;
    WeightsAreNonNegative(w, row);
    assert w(Fin(row[j].v)) > 0.0;
    SumAtLeast(Weights(w, row), j);
  }

  /** The largest logit survives top-k, so some mass does. */
  lemma FiniteSurvives(s: seq<Logit>, topK: Option<int>)
    requires Sorted(s) && HasFinite(s) && TopKFits(topK, |s|)
    ensures HasFinite(AfterTopK(s, Threshold(s, topK)))
  {
    var j :| 0 <= j < |s| && s[j].Fin?;
    assert AtMost(s[j], s[|s| - 1]);
    assert AfterTopK(s, Threshold(s, topK))[|s| - 1].Fin?;
  }

  /** The main theorem, in the row's own order and whatever the order of ties: the mask is a nucleus of
      what top-k leaves, and keeps at least one token. */
  lemma RowMaskIsNucleus(w: Weight, order: seq<nat>, row: seq<Logit>, topK: Option<int>, topP: real)
    requires IsWeight(w) && Sorts(order, row) && TopKFits(topK, |row|) && HasFinite(row) && 0.0 < topP < 1.0
    ensures var mask := RowMask(w, order, row, topK, topP);
      && IsNucleus(w, AfterTopK(row, Threshold(Permute(row, order), topK)), topP, mask)
      && Size(mask) > 0
  {
    hide IsNucleus, TopPMask, SortedMask;
    var s := Permute(row, order);
    var t := Threshold(s, topK);
    var mask := RowMask(w, order, row, topK, topP);
    var j :| 0 <= j < |row| && row[j].Fin?;
    assert s[Position(order, j)].Fin?;
    FiniteSurvives(s, topK);
    AfterTopKSorted(s, t);
    SomeMass(w, AfterTopK(s, t));
    TopKCollapse(w, s, topK, topP);
    SortedIsNucleus(w, AfterTopK(s, t), topP);
    AfterTopKPermuted(row, order, t);
    NucleusPermuted(w, AfterTopK(row, t), topP, mask, order);
    PermutedSize(mask, order);
  }

  /** Without any one of its tokens, a nucleus falls below the mass asked for. */
  lemma NucleusIsTight(w: Weight, row: seq<Logit>, p: real, mask: seq<bool>, a: nat)
    requires |mask| == |row| && IsNucleus(w, row, p, mask) && a < |row| && mask[a]
    ensures Mass(w, row, mask[a := false]) < Portion(p, TotalMass(w, row))
  {
    SizeMonotone(mask[a := false], mask);
  }

  /** All nuclei of a row are equally large. */
  lemma NucleiAreEquallyLarge(w: Weight, row: seq<Logit>, p: real, mask: seq<bool>, mask': seq<bool>)
    requires |mask| == |mask'| == |row| && IsNucleus(w, row, p, mask) && IsNucleus(w, row, p, mask')
    ensures Size(mask) == Size(mask')
  {}
}
