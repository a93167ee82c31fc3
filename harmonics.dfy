/**
 * Harmonic selection and accumulation of the additive-synthesis fillers
 * (tbl::impulseSum with a harmonic range, tbl::sawSum, tbl::squareSum,
 * tbl::triangleSum).
 *
 * Each filler adds, for every harmonic it selects, one term per sample to an
 * index range of the buffer. The term itself is an amplitude times a sine or
 * cosine of the accumulated phase; it is a parameter here, `term(h, j)` being
 * what harmonic h adds at buffer index j. What is modelled is which harmonics
 * are visited, in which order, with which sign, and which indices receive them.
 */
module Harmonics {

  import opened Basics

  /** The number of harmonics a table of `len` samples holds below Nyquist (tbl::maxHarmonics). */
  function MaxHarmonics(len: nat): (n: nat)
    ensures 2 * n <= len < 2 * n + 2
  {
    len / 2
  }

  /** `h | 1` on a non-negative integer: h itself when odd, the next odd number when even. */
  function OrOne(h: nat): (r: nat)
    ensures r % 2 == 1
    ensures h <= r <= h + 1
  {
    if h % 2 == 0 then h + 1 else h
  }

  /** The harmonics visited by `lo |= 1; for (i = lo; i <= hi; i += 2)`. */
  function OddSpan(lo: nat, hi: nat): seq<nat>
  {
    if hi < OrOne(lo) then []
    else seq((hi - OrOne(lo)) / 2 + 1, k requires 0 <= k < (hi - OrOne(lo)) / 2 + 1 => OrOne(lo) + 2 * k)
  }

  /**
   * The odd selection visits exactly the odd integers in [lo, hi], each once,
   * in increasing steps of two.
   */
  lemma OddSpanMembers(lo: nat, hi: nat)
    ensures forall h :: h in OddSpan(lo, hi) <==> lo <= h <= hi && h % 2 == 1
    ensures forall k :: 0 <= k < |OddSpan(lo, hi)| - 1 ==> OddSpan(lo, hi)[k + 1] == OddSpan(lo, hi)[k] + 2
  {
    forall h | lo <= h <= hi && h % 2 == 1
      ensures h in OddSpan(lo, hi)
    {
      assert OddSpan(lo, hi)[(h - OrOne(lo)) / 2] == h;
    }
  }

  /** The odd selection visits no harmonic exactly when lo | 1 exceeds hi. */
  lemma OddSpanEmpty(lo: nat, hi: nat)
    ensures |OddSpan(lo, hi)| == 0 <==> OrOne(lo) > hi
  {
  }

  /** The sign triangleSum gives harmonic h: positive exactly when h mod 4 == 1. */
  function TriangleSign(h: nat): (s: int)
    ensures s == 1 || s == -1
  {
    if h % 4 == 1 then 1 else -1
  }

  /** What the harmonics `hs`, in order, add at index j. */
  function HarmonicSum(hs: seq<nat>, term: (nat, nat) -> real, j: nat): real
  {
    if |hs| == 0 then 0.0 else HarmonicSum(hs[..|hs| - 1], term, j) + term(hs[|hs| - 1], j)
  }

  /** What the harmonics `hs` add at index j with the triangle wave's alternating signs. */
  function AlternatingSum(hs: seq<nat>, term: (nat, nat) -> real, j: nat): real
  {
    if |hs| == 0 then 0.0
    else AlternatingSum(hs[..|hs| - 1], term, j) + TriangleSign(hs[|hs| - 1]) as real * term(hs[|hs| - 1], j)
  }

  /** Visiting one more harmonic adds its term. */
  lemma HarmonicSumSnoc(hs: seq<nat>, n: nat, term: (nat, nat) -> real)
    requires n < |hs|
    ensures forall j :: HarmonicSum(hs[..n + 1], term, j) == HarmonicSum(hs[..n], term, j) + term(hs[n], j)
  {
    assert hs[..n + 1][..n] == hs[..n];
  }

  /** Visiting one more harmonic adds its term with its triangle sign. */
  lemma AlternatingSumSnoc(hs: seq<nat>, n: nat, term: (nat, nat) -> real)
    requires n < |hs|
    ensures forall j :: AlternatingSum(hs[..n + 1], term, j) ==
                        AlternatingSum(hs[..n], term, j) + TriangleSign(hs[n]) as real * term(hs[n], j)
  {
    assert hs[..n + 1][..n] == hs[..n];
  }

  /** The n-th harmonic of the odd selection, while the loop's counter has not passed hi. */
  lemma OddSpanAt(lo: nat, hi: nat, n: nat)
    requires OrOne(lo) + 2 * n <= hi
    ensures n < |OddSpan(lo, hi)| && OddSpan(lo, hi)[n] == OrOne(lo) + 2 * n
  {
  }

  /** Consecutive odd harmonics get opposite triangle signs, so the signs alternate along the selection. */
  lemma TriangleSignsAlternate(lo: nat, hi: nat)
    ensures forall k :: 0 <= k < |OddSpan(lo, hi)| - 1 ==>
              TriangleSign(OddSpan(lo, hi)[k + 1]) == -TriangleSign(OddSpan(lo, hi)[k])
  {
    forall k | 0 <= k < |OddSpan(lo, hi)| - 1
      ensures TriangleSign(OddSpan(lo, hi)[k + 1]) == -TriangleSign(OddSpan(lo, hi)[k])
    {
      TriangleSignStep(OddSpan(lo, hi)[k]);
    }
  }

  /** Two odd harmonics apart, the triangle sign flips. */
  lemma TriangleSignStep(h: nat)
    requires h % 2 == 1
    ensures TriangleSign(h + 2) == -TriangleSign(h)
  {
    assert (h + 2) % 4 == 1 <==> h % 4 == 3;
  }

  /** The sign triangleSum starts with: negative exactly when bit 1 of lo | 1 is set. */
  function FirstTriangleSign(lo: nat): (s: int)
    ensures s == TriangleSign(OrOne(lo))
  {
    if (OrOne(lo) / 2) % 2 == 1 then -1 else 1
  }

  /** Adds `sign * term(h, j)` to every a[j] with first <= j <= last: one pass of a filler's inner loop. */
  method AddHarmonic(a: array<real>, h: nat, first: nat, last: int, sign: int, term: (nat, nat) -> real)
    requires last < first || last < a.Length
    modifies a
    ensures forall j :: 0 <= j < a.Length ==>
              a[j] == if first <= j <= last then old(a[j]) + sign as real * term(h, j) else old(a[j])
  {
    var j := first;
    while j <= last
      invariant first <= j <= if last < first then first else last + 1
      invariant forall i :: 0 <= i < a.Length ==>
                  a[i] == if first <= i < j then old(a[i]) + sign as real * term(h, i) else old(a[i])
      decreases last + 1 - j
    {
      a[j] := a[j] + sign as real * term(h, j);
      j := j + 1;
    }
  }

  /**
   * tbl::impulseSum(dst, len, lo, hi) before its mirroring step: every
   * harmonic lo..hi is added at indices 0..len/2.
   */
  method ImpulseSumRange(a: array<real>, lo: nat, hi: nat, term: (nat, nat) -> real)
    requires a.Length >= 1
    modifies a
    ensures forall j :: 0 <= j <= a.Length / 2 ==> a[j] == old(a[j]) + HarmonicSum(Range(lo, hi), term, j)
    ensures forall j :: a.Length / 2 < j < a.Length ==> a[j] == old(a[j])
  {
    var hLen := a.Length / 2;
    var k := lo;
    ghost var n := 0;
    while k <= hi
      invariant k == lo + n && n <= |Range(lo, hi)|
      invariant hi < lo ==> n == 0
      invariant forall j :: 0 <= j <= hLen ==> a[j] == old(a[j]) + HarmonicSum(Range(lo, hi)[..n], term, j)
      invariant forall j :: hLen < j < a.Length ==> a[j] == old(a[j])
      decreases hi + 1 - k
    {
      HarmonicSumSnoc(Range(lo, hi), n, term);
      AddHarmonic(a, k, 0, hLen, 1, term);
      k := k + 1;
      n := n + 1;
    }
    assert Range(lo, hi)[..n] == Range(lo, hi);
  }

  /**
   * tbl::sawSum before its mirroring step: every harmonic lo..hi is added at
   * indices 1..len/2 - 1.
   */
  method SawSum(a: array<real>, lo: nat, hi: nat, term: (nat, nat) -> real)
    modifies a
    ensures forall j :: 1 <= j < a.Length / 2 ==> a[j] == old(a[j]) + HarmonicSum(Range(lo, hi), term, j)
    ensures forall j :: 0 <= j < a.Length && !(1 <= j < a.Length / 2) ==> a[j] == old(a[j])
  {
    var hLen := a.Length / 2;
    var i := lo;
    ghost var n := 0;
    while i <= hi
      invariant i == lo + n && n <= |Range(lo, hi)|
      invariant hi < lo ==> n == 0
      invariant forall j :: 1 <= j < hLen ==> a[j] == old(a[j]) + HarmonicSum(Range(lo, hi)[..n], term, j)
      invariant forall j :: 0 <= j < a.Length && !(1 <= j < hLen) ==> a[j] == old(a[j])
      decreases hi + 1 - i
    {
      HarmonicSumSnoc(Range(lo, hi), n, term);
      AddHarmonic(a, i, 1, hLen - 1, 1, term);
      i := i + 1;
      n := n + 1;
    }
    assert Range(lo, hi)[..n] == Range(lo, hi);
  }

  /**
   * tbl::squareSum before its mirroring steps: every odd harmonic in
   * [lo, hi] is added at indices 1..len/4, the first quadrant.
   */
  method SquareSum(a: array<real>, lo: nat, hi: nat, term: (nat, nat) -> real)
    modifies a
    ensures forall j :: 1 <= j <= a.Length / 4 ==> a[j] == old(a[j]) + HarmonicSum(OddSpan(lo, hi), term, j)
    ensures forall j :: 0 <= j < a.Length && !(1 <= j <= a.Length / 4) ==> a[j] == old(a[j])
  {
    var qLen := a.Length / 4;
    var i := OrOne(lo);
    ghost var n := 0;
    while i <= hi
      invariant i == OrOne(lo) + 2 * n && n <= |OddSpan(lo, hi)|
      invariant hi < OrOne(lo) ==> n == 0
      invariant forall j :: 1 <= j <= qLen ==> a[j] == old(a[j]) + HarmonicSum(OddSpan(lo, hi)[..n], term, j)
      invariant forall j :: 0 <= j < a.Length && !(1 <= j <= qLen) ==> a[j] == old(a[j])
      decreases hi + 2 - i
    {
      OddSpanAt(lo, hi, n);
      HarmonicSumSnoc(OddSpan(lo, hi), n, term);
      AddHarmonic(a, i, 1, qLen, 1, term);
      i := i + 2;
      n := n + 1;
    }
    assert OddSpan(lo, hi)[..n] == OddSpan(lo, hi);
  }

  /**
   * tbl::triangleSum before its mirroring steps: every odd harmonic h in
   * [lo, hi] is added at indices 1..len/4 with sign TriangleSign(h). The
   * running sign starts from bit 1 of lo | 1 and flips every step.
   */
  method TriangleSum(a: array<real>, lo: nat, hi: nat, term: (nat, nat) -> real)
    modifies a
    ensures forall j :: 1 <= j <= a.Length / 4 ==> a[j] == old(a[j]) + AlternatingSum(OddSpan(lo, hi), term, j)
    ensures forall j :: 0 <= j < a.Length && !(1 <= j <= a.Length / 4) ==> a[j] == old(a[j])
  {
    var qLen := a.Length / 4;
    var i := OrOne(lo);
    var factor := FirstTriangleSign(lo);
    ghost var n := 0;
    while i <= hi
      invariant i == OrOne(lo) + 2 * n && n <= |OddSpan(lo, hi)|
      invariant hi < OrOne(lo) ==> n == 0
      invariant factor == TriangleSign(i)
      invariant forall j :: 1 <= j <= qLen ==> a[j] == old(a[j]) + AlternatingSum(OddSpan(lo, hi)[..n], term, j)
      invariant forall j :: 0 <= j < a.Length && !(1 <= j <= qLen) ==> a[j] == old(a[j])
      decreases hi + 2 - i
    {
      OddSpanAt(lo, hi, n);
      AlternatingSumSnoc(OddSpan(lo, hi), n, term);
      TriangleSignStep(i);
      var sign := factor;
      factor := -factor;
      AddHarmonic(a, i, 1, qLen, sign, term);
      i := i + 2;
      n := n + 1;
    }
    assert OddSpan(lo, hi)[..n] == OddSpan(lo, hi);
  }
}
