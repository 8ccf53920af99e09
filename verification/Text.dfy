/** Occurrences of one string in another, and the library searches the scanners start from. */
module Text {

  /** `part` stands in `text` at position `j`. */
  predicate At(text: string, j: nat, part: string) {
    j + |part| <= |text| && text[j..j + |part|] == part
  }

  lemma AtConcat(text: string, j: nat, a: string, b: string)
    ensures At(text, j, a + b) <==> At(text, j, a) && At(text, j + |a|, b)
  {
    if At(text, j, a + b) {
      assert a == (a + b)[..|a|] && b == (a + b)[|a|..];
    }
    if At(text, j, a) && At(text, j + |a|, b) {
      assert text[j..j + |a + b|] == text[j..j + |a|] + text[j + |a|..j + |a| + |b|];
    }
  }

  lemma AtCons(text: string, j: nat, c: char, b: string)
    ensures At(text, j, [c] + b) <==> j < |text| && text[j] == c && At(text, j + 1, b)
  {
    AtConcat(text, j, [c], b);
  }

  lemma AtChar(text: string, j: nat, c: char)
    ensures At(text, j, [c]) <==> j < |text| && text[j] == c
  {}

  lemma AtFits(text: string, j: nat, part: string)
    requires At(text, j, part)
    ensures j + |part| <= |text|
  {}

  lemma AtIndex(text: string, j: nat, part: string, d: nat)
    requires At(text, j, part) && d < |part|
    ensures text[j + d] == part[d]
  {
    assert text[j..j + |part|][d] == text[j + d];
  }

  lemma AtInside(text: string, part: string, j: nat, from: nat, to: nat)
    requires from <= to <= |text|
    ensures At(text[from..to], j, part) <==> At(text, from + j, part) && from + j + |part| <= to
  {
    if from + j + |part| <= to {
      var left, right := text[from..to][j..j + |part|], text[from + j..from + j + |part|];
      assert forall d | 0 <= d < |part| :: left[d] == right[d];
      assert left == right;
    } else {
      assert |text[from..to]| == to - from;
    }
  }

  predicate Occurs(text: string, part: string) {
    exists k | 0 <= k <= |text| :: At(text, k, part)
  }

  /** `str.rfind`: the last occurrence, or -1. */
  function RFind(text: string, part: string): (i: int)
    ensures -1 <= i <= |text|
    ensures i >= 0 ==> At(text, i, part)
    ensures forall k: nat | k > i :: !At(text, k, part)
  {
    RFindUpTo(text, part, |text|)
  }

  function RFindUpTo(text: string, part: string, n: nat): (i: int)
    requires n <= |text|
    requires forall k: nat | k > n :: !At(text, k, part)
    ensures -1 <= i <= n
    ensures i >= 0 ==> At(text, i, part)
    ensures forall k: nat | k > i :: !At(text, k, part)
  {
    if At(text, n, part) then n
    else if n == 0 then -1
    else RFindUpTo(text, part, n - 1)
  }

  lemma RFindIs(text: string, part: string, i: nat)
    requires At(text, i, part) && forall k: nat | k > i :: !At(text, k, part)
    ensures RFind(text, part) == i
  {}

  /** `str.find`: the first occurrence, or -1. */
  function Find(text: string, part: string): (i: int)
    ensures -1 <= i <= |text|
    ensures i >= 0 ==> At(text, i, part) && forall k: nat | k < i :: !At(text, k, part)
    ensures i == -1 ==> forall k: nat :: !At(text, k, part)
  {
    FindFrom(text, part, 0)
  }

  function FindFrom(text: string, part: string, n: nat): (i: int)
    requires n <= |text|
    requires forall k: nat | k < n :: !At(text, k, part)
    ensures -1 <= i <= |text|
    ensures i >= 0 ==> At(text, i, part) && forall k: nat | k < i :: !At(text, k, part)
    ensures i == -1 ==> forall k: nat :: !At(text, k, part)
    decreases |text| - n
  {
    if At(text, n, part) then n
    else if n == |text| then -1
    else FindFrom(text, part, n + 1)
  }

  /** `str.count`: occurrences met from the left without overlap. */
  function Count(text: string, part: string, i: nat): nat
    requires part != "" && i <= |text|
    decreases |text| - i
  {
    if At(text, i, part) then 1 + Count(text, part, i + |part|)
    else if i == |text| then 0
    else Count(text, part, i + 1)
  }

  /** A pattern whose first character does not come back later in it cannot overlap itself. */
  predicate StartsOnce(part: string) {
    part != "" && forall d | 0 < d < |part| :: part[d] != part[0]
  }

  lemma NoOverlap(text: string, part: string, i: nat, k: nat)
    requires StartsOnce(part) && At(text, i, part) && At(text, k, part) && i < k
    ensures i + |part| <= k
  {
    AtIndex(text, k, part, 0);
    if k < i + |part| {
      AtIndex(text, i, part, k - i);
      assert false;
    }
  }

  lemma {:induction false} CountZeroIff(text: string, part: string, i: nat)
    requires StartsOnce(part) && i <= |text|
    ensures Count(text, part, i) == 0 <==> forall k: nat | k >= i :: !At(text, k, part)
    decreases |text| - i
  {
    if !At(text, i, part) && i < |text| {
      CountZeroIff(text, part, i + 1);
    }
  }

  /** The count is one exactly when there is one occurrence. */
  lemma {:induction false} CountOneIff(text: string, part: string, i: nat)
    requires StartsOnce(part) && i <= |text|
    ensures Count(text, part, i) == 1 <==>
      exists p: nat :: i <= p && At(text, p, part) && forall k: nat | k >= i && At(text, k, part) :: k == p
    decreases |text| - i
  {
    if At(text, i, part) {
      CountZeroIff(text, part, i + |part|);
      if Count(text, part, i + |part|) == 0 {
        forall k: nat | k >= i && At(text, k, part)
          ensures k == i
        {
          if k > i { NoOverlap(text, part, i, k); }
        }
      }
    } else if i < |text| {
      CountOneIff(text, part, i + 1);
      if Count(text, part, i + 1) == 1 {
        var p: nat :| i + 1 <= p && At(text, p, part) && forall k: nat | k >= i + 1 && At(text, k, part) :: k == p;
        assert forall k: nat | k >= i && At(text, k, part) :: k == p;
      }
      if p: nat :| i <= p && At(text, p, part) && forall k: nat | k >= i && At(text, k, part) :: k == p {
        assert i + 1 <= p;
      }
    }
  }
}
