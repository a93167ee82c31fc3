/**
 * Single-period table fillers with a half-period antisymmetry (tbl::cosine,
 * tbl::sine) and the closed-form band-limited impulse (tbl::impulseSum).
 *
 * The cosine and sine samples are transcendental; `value(k)` stands for the
 * sample the source computes at index k of the first half (cos or sin of
 * k times 2 pi / len). What is modelled is where each sample is written.
 */
module Waves {

  /**
   * The table cosine and sine leave in a buffer `prev` of len >= 2 entries,
   * with h = len / 2: `first` at 0, value(k) at 1 <= k < h, and the negation
   * of entry k at h + k. An entry at index 2h or above (the last one, when
   * len is odd) is not written.
   */
  function HalfWaveTable(prev: seq<real>, first: real, value: nat -> real): (t: seq<real>)
    requires |prev| >= 2
    ensures |t| == |prev|
  {
    var h := |prev| / 2;
    seq(|prev|, k requires 0 <= k < |prev| =>
      if k == 0 then first
      else if k < h then value(k)
      else if k == h then -first
      else if k < 2 * h then -value(k - h)
      else prev[k])
  }

  /**
   * The half-wave table is antisymmetric over half a period: entry h + k is
   * the negation of entry k, the first half holds `first` and then the
   * samples, and entries past 2h are untouched.
   */
  lemma HalfWaveAntisymmetric(prev: seq<real>, first: real, value: nat -> real)
    requires |prev| >= 2
    ensures var t, h := HalfWaveTable(prev, first, value), |prev| / 2;
            t[0] == first &&
            (forall k :: 1 <= k < h ==> t[k] == value(k)) &&
            (forall k :: 0 <= k < h ==> t[h + k] == -t[k]) &&
            (forall k :: 2 * h <= k < |prev| ==> t[k] == prev[k])
  {
  }

  /** Writes `first`, the samples and their negations as in HalfWaveTable: the shared loop of cosine and sine. */
  method FillHalfWave(a: array<real>, first: real, value: nat -> real)
    requires a.Length >= 2
    modifies a
    ensures a[..] == HalfWaveTable(old(a[..]), first, value)
  {
    var h := a.Length / 2;
    a[0] := first;
    a[h] := -first;
    var k := 1;
    while k < h
      invariant 1 <= k <= h
      invariant a[0] == first && a[h] == -first
      invariant forall i :: 1 <= i < k ==> a[i] == value(i)
      invariant forall i :: h < i < h + k ==> a[i] == -value(i - h)
      invariant forall i :: k <= i < h ==> a[i] == old(a[i])
      invariant forall i :: h + k <= i < a.Length ==> a[i] == old(a[i])
    {
      var val := value(k);
      a[k] := val;
      a[h + k] := -val;
      k := k + 1;
    }
  }

  /** tbl::cosine: 1 at the start, -1 half a period later, the cosine samples and their negations between. */
  method Cosine(a: array<real>, value: nat -> real)
    requires a.Length >= 2
    modifies a
    ensures a[..] == HalfWaveTable(old(a[..]), 1.0, value)
  {
    FillHalfWave(a, 1.0, value);
  }

  /** tbl::sine: 0 at the start and half a period later, the sine samples and their negations between. */
  method Sine(a: array<real>, value: nat -> real)
    requires a.Length >= 2
    modifies a
    ensures a[..] == HalfWaveTable(old(a[..]), 0.0, value)
  {
    FillHalfWave(a, 0.0, value);
  }

  /**
   * The closed form tbl::impulseSum(dst, len) writes for len >= 2, with
   * h = len / 2: h - 1 at index 0, then 0 at every odd index and -1 at
   * every even index below 2h. An entry at index 2h (the last one, when len
   * is odd) is not written.
   */
  function ImpulseTable(prev: seq<real>): (t: seq<real>)
    requires |prev| >= 2
    ensures |t| == |prev|
  {
    var h := |prev| / 2;
    seq(|prev|, k requires 0 <= k < |prev| =>
      if k == 0 then (h - 1) as real
      else if k >= 2 * h then prev[k]
      else if k % 2 == 1 then 0.0
      else -1.0)
  }

  /** tbl::impulseSum(dst, len): h - 1, 0, then h - 1 pairs (-1, 0). */
  method ImpulseSum(a: array<real>)
    requires a.Length >= 2
    modifies a
    ensures a[..] == ImpulseTable(old(a[..]))
  {
    var harmonics := a.Length / 2 - 1;
    a[0] := harmonics as real;
    a[1] := 0.0;
    var i := 0;
    while i < harmonics
      invariant 0 <= i <= harmonics
      invariant forall k :: 0 <= k < a.Length ==>
                  a[k] == if k == 0 then harmonics as real
                          else if k >= 2 * i + 2 then old(a[k])
                          else if k % 2 == 1 then 0.0
                          else -1.0
    {
      a[2 * i + 2] := -1.0;
      a[2 * i + 3] := 0.0;
      i := i + 1;
    }
  }

  /** The entries of a finite sequence, added up. */
  function SumOf(s: seq<real>): real
  {
    if |s| == 0 then 0.0 else SumOf(s[..|s| - 1]) + s[|s| - 1]
  }

  /** The first m written entries of the impulse add up to h - 1 minus the number of -1s among them. */
  lemma {:induction false} ImpulsePrefixSum(prev: seq<real>, m: nat)
    requires |prev| >= 2 && 1 <= m <= 2 * (|prev| / 2)
    ensures SumOf(ImpulseTable(prev)[..m]) == (|prev| / 2 - 1 - (m - 1) / 2) as real
  {
    var t := ImpulseTable(prev);
    if m > 1 {
      ImpulsePrefixSum(prev, m - 1);
      assert t[..m][..m - 1] == t[..m - 1];
    }
  }

  /**
   * For an even length the impulse table has every entry written and they
   * add up to zero: the table has no DC component.
   */
  lemma ImpulseSumsToZero(prev: seq<real>)
    requires |prev| >= 2 && |prev| % 2 == 0
    ensures SumOf(ImpulseTable(prev)) == 0.0
  {
    ImpulsePrefixSum(prev, |prev|);
    assert ImpulseTable(prev)[..|prev|] == ImpulseTable(prev);
  }
}
