/**
 * Integer notions shared by the table modules: powers of two (the table
 * sizes and bit positions of tbl.h) and consecutive harmonic ranges (the
 * harmonics a `for (i = lo; i <= hi; ++i)` loop visits).
 */
module Basics {

  /** 2^n. */
  function Pow2(n: nat): (p: nat)
    ensures p >= 1
  {
    if n == 0 then 1 else 2 * Pow2(n - 1)
  }

  /** Exponents add: 2^a * 2^b == 2^(a + b). */
  lemma {:induction false} Pow2Add(a: nat, b: nat)
    ensures Pow2(a) * Pow2(b) == Pow2(a + b)
    decreases a
  {
    if a > 0 {
      Pow2Add(a - 1, b);
    }
  }

  /** The harmonics lo, lo + 1, ..., hi in increasing order, none when hi < lo. */
  function Range(lo: nat, hi: nat): (r: seq<nat>)
    ensures |r| == if hi < lo then 0 else hi - lo + 1
  {
    if hi < lo then [] else seq(hi - lo + 1, k requires 0 <= k < hi - lo + 1 => lo + k)
  }

  /** A range holds every harmonic in [lo, hi] and nothing else, each once, in increasing order. */
  lemma RangeMembers(lo: nat, hi: nat)
    ensures forall h :: h in Range(lo, hi) <==> lo <= h <= hi
    ensures forall k :: 0 <= k < |Range(lo, hi)| ==> Range(lo, hi)[k] == lo + k
    ensures forall j, k :: 0 <= j < k < |Range(lo, hi)| ==> Range(lo, hi)[j] < Range(lo, hi)[k]
  {
    forall h | lo <= h <= hi
      ensures h in Range(lo, hi)
    {
      assert Range(lo, hi)[h - lo] == h;
    }
  }

  /** Adjacent ranges join: [lo, mid] followed by [mid + 1, hi] is [lo, hi]. */
  lemma RangeSplit(lo: nat, mid: nat, hi: nat)
    requires lo <= mid + 1 && mid <= hi
    ensures Range(lo, mid) + Range(mid + 1, hi) == Range(lo, hi)
  {
  }
}
