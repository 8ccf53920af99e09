/** Sums and counts over a row, and their independence of the order of the row. */
module Permutations {

  predicate IsMask(mask: seq<real>) {
    forall i | 0 <= i < |mask| :: mask[i] == 0.0 || mask[i] == 1.0
  }

  function Sum(s: seq<real>): real {
    if s == [] then 0.0 else s[0] + Sum(s[1..])
  }

  /** How many positions a mask keeps. */
  function Size(mask: seq<bool>): nat {
    if mask == [] then 0 else (if mask[0] then 1 else 0) + Size(mask[1..])
  }

  /** The entries of `s` at the positions a mask keeps, zero elsewhere. */
  function Where(s: seq<real>, mask: seq<bool>): (t: seq<real>)
    requires |s| == |mask|
    ensures |t| == |s|
  {
    seq(|s|, i requires 0 <= i < |s| => if mask[i] then s[i] else 0.0)
  }

  predicate IsPermutation(order: seq<nat>, n: nat) {
    && |order| == n
    && (forall i | 0 <= i < n :: order[i] < n)
    && (forall i, j | 0 <= i < j < n :: order[i] != order[j])
    && (forall k: nat | k < n :: k in order)
  }

  function Permute<T>(s: seq<T>, order: seq<nat>): (t: seq<T>)
    requires IsPermutation(order, |s|)
    ensures |t| == |s|
  {
    seq(|order|, i requires 0 <= i < |order| => s[order[i]])
  }

  lemma {:induction false} SumSplit(s: seq<real>, i: nat)
    requires i <= |s|
    ensures Sum(s) == Sum(s[..i]) + Sum(s[i..])
  {
    if i > 0 {
      SumSplit(s[1..], i - 1);
      assert s[..i][1..] == s[1..][..i - 1];
    }
  }

  lemma SumSingle(x: real)
    ensures Sum([x]) == x
  {}

  lemma SumLast(s: seq<real>)
    requires s != []
    ensures Sum(s) == Sum(s[..|s| - 1]) + s[|s| - 1]
  {
    SumSplit(s, |s| - 1);
    assert s[|s| - 1..] == [s[|s| - 1]];
    SumSingle(s[|s| - 1]);
  }

  predicate NonNegative(s: seq<real>) {
    forall i | 0 <= i < |s| :: s[i] >= 0.0
  }

  lemma {:induction false} SumNonNegative(s: seq<real>)
    requires NonNegative(s)
    ensures Sum(s) >= 0.0
  {
    if s != [] {
      SumNonNegative(s[1..]);
    }
  }

  lemma {:induction false} SumAtLeast(s: seq<real>, i: nat)
    requires NonNegative(s) && i < |s|
    ensures Sum(s) >= s[i]
  {
    SumSplit(s, i);
    SumNonNegative(s[..i]);
    SumNonNegative(s[i..][1..]);
  }

  lemma {:induction false} SumZero(s: seq<real>)
    requires forall i | 0 <= i < |s| :: s[i] == 0.0
    ensures Sum(s) == 0.0
  {
    if s != [] {
      SumZero(s[1..]);
    }
  }

  /** Where a permutation sends the largest position, and the rest without it. */
  lemma WithoutLargest(order: seq<nat>, n: nat) returns (q: nat, rest: seq<nat>)
    requires n > 0 && IsPermutation(order, n)
    ensures q < n && order[q] == n - 1
    ensures rest == order[..q] + order[q + 1..] && IsPermutation(rest, n - 1)
  {
    assert (n - 1) as nat in order;
    q :| 0 <= q < n && order[q] == n - 1;
    rest := order[..q] + order[q + 1..];
    forall i, j | 0 <= i < j < n - 1
      ensures rest[i] != rest[j]
    {
      RestAt(order, q, rest, i);
      RestAt(order, q, rest, j);
    }
    forall i | 0 <= i < n - 1
      ensures rest[i] < n - 1
    {
      RestAt(order, q, rest, i);
    }
    forall k: nat | k < n - 1
      ensures k in rest
    {
      RestCovers(order, q, rest, k);
    }
  }

  function Past(i: int, q: int): int {
    if i < q then i else i + 1
  }

  lemma RestAt(order: seq<nat>, q: nat, rest: seq<nat>, i: nat)
    requires IsPermutation(order, |order|) && q < |order| && i + 1 < |order|
    requires rest == order[..q] + order[q + 1..]
    ensures rest[i] == order[Past(i, q)] && order[Past(i, q)] != order[q]
  {}

  lemma RestCovers(order: seq<nat>, q: nat, rest: seq<nat>, k: nat)
    requires q < |order| && rest == order[..q] + order[q + 1..] && k in order && k != order[q]
    ensures k in rest
  {
    var i :| 0 <= i < |order| && order[i] == k;
    assert rest[if i < q then i else i - 1] == k;
  }

  /** A sum does not depend on the order of its terms. */
  lemma {:induction false} PermutedSum(s: seq<real>, order: seq<nat>)
    requires IsPermutation(order, |s|)
    ensures Sum(Permute(s, order)) == Sum(s)
    decreases |s|
  {
    var n := |s|;
    if n > 0 {
      var q, rest := WithoutLargest(order, n);
      var t := Permute(s, order);
      PermutedSum(s[..n - 1], rest);
      var u := Permute(s[..n - 1], rest);
      assert u == t[..q] + t[q + 1..];
      SumConcat(t[..q], t[q + 1..]);
      SumSplit(t, q);
      assert t[q..][1..] == t[q + 1..];
      SumLast(s);
    }
  }

  lemma SumConcat(a: seq<real>, b: seq<real>)
    ensures Sum(a + b) == Sum(a) + Sum(b)
  {
    SumSplit(a + b, |a|);
    assert (a + b)[..|a|] == a && (a + b)[|a|..] == b;
  }

  function Ones(n: nat): (s: seq<real>)
    ensures |s| == n
  {
    seq(n, _ => 1.0)
  }

  lemma {:induction false} SizeAsSum(mask: seq<bool>)
    ensures Sum(Where(Ones(|mask|), mask)) == Size(mask) as real
  {
    if mask != [] {
      SizeAsSum(mask[1..]);
      assert Where(Ones(|mask|), mask)[1..] == Where(Ones(|mask| - 1), mask[1..]);
    }
  }

  lemma PermuteWhere(s: seq<real>, mask: seq<bool>, order: seq<nat>)
    requires |s| == |mask| && IsPermutation(order, |s|)
    ensures Sum(Where(Permute(s, order), Permute(mask, order))) == Sum(Where(s, mask))
  {
    PermutedSum(Where(s, mask), order);
    assert Permute(Where(s, mask), order) == Where(Permute(s, order), Permute(mask, order));
  }

  /** Neither does a count. */
  lemma PermutedSize(mask: seq<bool>, order: seq<nat>)
    requires IsPermutation(order, |mask|)
    ensures Size(Permute(mask, order)) == Size(mask)
  {
    SizeAsSum(mask);
    SizeAsSum(Permute(mask, order));
    PermuteWhere(Ones(|mask|), mask, order);
    assert Permute(Ones(|mask|), order) == Ones(|mask|);
  }

  lemma {:induction false} SizeMonotone(a: seq<bool>, b: seq<bool>)
    requires |a| == |b| && forall i | 0 <= i < |a| :: a[i] ==> b[i]
    ensures Size(a) <= Size(b)
    ensures (exists i :: 0 <= i < |a| && b[i] && !a[i]) ==> Size(a) < Size(b)
  {
    if a != [] {
      assert forall i | 0 <= i < |a[1..]| :: a[1..][i] == a[i + 1] && b[1..][i] == b[i + 1];
      SizeMonotone(a[1..], b[1..]);
      if i :| 0 <= i < |a| && b[i] && !a[i] {
        if i > 0 {
          assert b[1..][i - 1] && !a[1..][i - 1];
        }
      }
    }
  }

  /** Keeping exactly the positions from `from` on. */
  function Suffix(n: nat, from: nat): (mask: seq<bool>)
    ensures |mask| == n
  {
    seq(n, i => i >= from)
  }

  lemma {:induction false} SuffixSize(n: nat, from: nat)
    requires from <= n
    ensures Size(Suffix(n, from)) == n - from
    decreases n
  {
    if n > 0 {
      var rest := if from == 0 then 0 else from - 1;
      SuffixSize(n - 1, rest);
      assert Suffix(n, from)[1..] == Suffix(n - 1, rest);
    }
  }

  lemma {:induction false} SuffixSum(s: seq<real>, from: nat)
    requires from <= |s|
    ensures Sum(Where(s, Suffix(|s|, from))) == Sum(s[from..])
  {
    SumSplit(Where(s, Suffix(|s|, from)), from);
    SumZero(Where(s, Suffix(|s|, from))[..from]);
    assert Where(s, Suffix(|s|, from))[from..] == s[from..];
  }

  predicate Ascending(s: seq<real>) {
    forall i, j | 0 <= i <= j < |s| :: s[i] <= s[j]
  }

  /** Of all choices of that many positions, the top ones have the largest sum. */
  lemma {:induction false} TopIsLargest(s: seq<real>, mask: seq<bool>)
    requires |s| == |mask| && Ascending(s)
    ensures Size(mask) <= |s| && Sum(Where(s, mask)) <= Sum(s[|s| - Size(mask)..])
  {
    if s != [] {
      TopIsLargest(s[1..], mask[1..]);
      var rest := Size(mask[1..]);
      assert Where(s, mask)[1..] == Where(s[1..], mask[1..]);
      assert s[1..][|s| - 1 - rest..] == s[|s| - rest..];
      if mask[0] {
        assert s[|s| - Size(mask)..][1..] == s[|s| - rest..];
      }
    }
  }

  lemma FewerIsLess(s: seq<real>, mask: seq<bool>, from: nat)
    requires |s| == |mask| && Ascending(s) && NonNegative(s) && from < |s| && Size(mask) < |s| - from
    ensures Sum(Where(s, mask)) <= Sum(s[from + 1..])
  {
    TopIsLargest(s, mask);
    var start := |s| - Size(mask);
    SumSplit(s[from + 1..], start - from - 1);
    assert s[from + 1..][start - from - 1..] == s[start..];
    SumNonNegative(s[from + 1..][..start - from - 1]);
  }
}
