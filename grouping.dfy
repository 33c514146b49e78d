/**
 * How the flattened excited-state records of input.dat are regrouped per
 * structure: structure j owns the n[j] records that follow the records of
 * structures 0 .. j - 1 (a negative count owns none, as range(0, n[j]) is empty).
 */
module Grouping {

  /** The number of iterations of range(0, m) for an int m. */
  function Rows(m: int): nat
  {
    if m > 0 then m else 0
  }

  /** n[0] + ... + n[j - 1], counting negative entries as zero. */
  function Offset(n: seq<int>, j: nat): (k: nat)
    requires j <= |n|
    decreases j
  {
    if j == 0 then 0 else Offset(n, j - 1) + (if n[j - 1] > 0 then n[j - 1] else 0)
  }

  /** Offsets grow with the structure index, by at least the count of each structure passed. */
  lemma {:induction false} OffsetMonotone(n: seq<int>, j: nat, k: nat)
    requires j < k <= |n|
    ensures Offset(n, j) + (if n[j] > 0 then n[j] else 0) <= Offset(n, k)
    decreases k - j
  {
    if k > j + 1 {
      OffsetMonotone(n, j, k - 1);
    }
  }

  /** An offset depends only on the counts before it. */
  lemma {:induction false} OffsetPrefix(a: seq<int>, b: seq<int>, j: nat)
    requires j <= |a|
    ensures Offset(a + b, j) == Offset(a, j)
    decreases j
  {
    if j > 0 {
      assert (a + b)[j - 1] == a[j - 1];
      OffsetPrefix(a, b, j - 1);
    }
  }
}
