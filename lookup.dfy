/**
 * Fixed-point phase lookup (tbl::atH, tbl::atQ, tbl::fraction).
 *
 * A phase is a 32-bit wrapping accumulator: bit 31 is the sign bit, bit 30
 * the direction bit (quarter tables only), the bits from `fbits` up the
 * integer table index and the bits below `fbits` the fraction. Table entries
 * are the raw 32-bit patterns of single-precision floats, so the sign
 * injection `val.i |= sign` is an exact bit operation. A table is the map
 * from an index word to the entry stored there; the index lemmas bound the
 * indices a lookup can read, which is the table size the caller must supply.
 *
 * A word is its unsigned value in [0, 2^32). Each bit operation of the
 * source is written as the arithmetic it performs on the operands it is
 * given: a mask of the low n bits is `% 2^n`, a right shift by n is
 * `/ 2^n`, a left shift is `* 2^n` modulo 2^32, xor with all ones is
 * subtraction from 2^32 - 1, and an OR of fields with no bit in common is
 * their sum.
 */
module Lookup {

  import opened Basics

  /** 2^32, 2^31 (the sign bit) and 2^30 (the direction bit). */
  const Modulus: int := 0x1_0000_0000
  const Half: int := 0x8000_0000
  const Quarter: int := 0x4000_0000

  /** An unsigned 32-bit word: a phase, or a float's bit pattern. */
  type Word = w: int | 0 <= w < 0x1_0000_0000

  /** A lookup table: the entry stored at each index. */
  type Table = Word -> Word

  lemma Pow2Constants()
    ensures Pow2(30) == Quarter && Pow2(31) == Half && Pow2(32) == Modulus
  {
    assert Pow2(10) == 1024;
    Pow2Add(10, 10);
    Pow2Add(20, 10);
  }

  // Arithmetic facts behind the word operations, stated on plain integers.

  lemma MulMono(a: int, b: int, c: int)
    requires a <= b && c >= 0
    ensures a * c <= b * c
  {
  }

  lemma DivMulAdd(q: int, d: int, r: int)
    requires d >= 1 && 0 <= r < d
    ensures (q * d + r) / d == q && (q * d + r) % d == r
  {
    var x := q * d + r;
    var k := x / d - q;
    assert (x / d) * d - q * d == k * d;
    if k > 0 {
      MulMono(1, k, d);
    } else if k < 0 {
      MulMono(k, -1, d);
    }
  }

  lemma DivBelow(x: nat, d: nat, q: nat)
    requires d >= 1 && x < d * q
    ensures x / d < q
  {
  }

  lemma ComplementArith(w: int)
    requires 0 <= w < Modulus
    ensures (Modulus - 1 - w) / Half == 1 - w / Half
    ensures (Modulus - 1 - w) % Half == Half - 1 - w % Half
    ensures (Modulus - 1 - w + 1) % Modulus == (0 - w) % Modulus
  {
    if w < Half {
      assert w / Half == 0 && w % Half == w;
      assert Modulus - 1 - w == Half + (Half - 1 - w);
    } else {
      assert w / Half == 1 && w % Half == w - Half;
      assert Modulus - 1 - w == Half - 1 - (w - Half);
    }
    if w == 0 {
    } else {
      assert (0 - w) % Modulus == Modulus - w;
    }
  }

  lemma DivAtMost(x: int, d: int)
    requires x >= 0 && d >= 1
    ensures 0 <= x / d <= x
  {
    MulMono(1, d, x / d);
  }

  lemma BackwardFold(phase: int, p: int)
    requires 0 <= phase < Modulus && (phase / Quarter) % 2 == 1 && 1 <= p <= Quarter
    ensures ((Modulus - 1 - phase + p) % Modulus) % Half == Quarter - 1 - phase % Quarter + p
  {
  }

  lemma BackwardDiv(pq: int, p: int, n: int)
    requires 0 <= pq < Quarter && p >= 1 && p * n == Quarter
    ensures (Quarter - 1 - pq + p) / p == n - pq / p
    ensures 1 <= n - pq / p <= n
  {
    var a, b := pq / p, pq % p;
    DivBelow(pq, p, n);
    assert Quarter - 1 - pq + p == (n - a) * p + (p - 1 - b);
    DivMulAdd(n - a, p, p - 1 - b);
  }

  lemma BackwardArith(phase: int, p: int, n: int)
    requires 0 <= phase < Modulus && (phase / Quarter) % 2 == 1 && p >= 1 && p * n == Quarter
    ensures (((Modulus - 1 - phase) + (1 * p) % Modulus) % Modulus) % Half / p == n - (phase % Quarter) / p
    ensures 1 <= n - (phase % Quarter) / p <= n
  {
    MulMono(1, n, p);
    assert (1 * p) % Modulus == p;
    BackwardFold(phase, p);
    BackwardDiv(phase % Quarter, p, n);
  }

  lemma SampleBound(q: int, p: int, n: int)
    requires 0 <= q <= n && p >= 1 && p * n == Quarter
    ensures (q * p) % Modulus == q * p <= Quarter
  {
    MulMono(q, n, p);
  }

  lemma SecondArith(q: int, p: int, n: int)
    requires 1 <= q <= n && p >= 1 && p * n == Quarter
    ensures var phase := (Half - q * p) % Modulus;
            (phase / Quarter) % 2 == 1 && phase / Half == 0 && (phase % Quarter) / p == n - q
  {
    MulMono(q, n, p);
    MulMono(1, q, p);
    assert (Half - q * p) % Modulus % Quarter == (n - q) * p;
    DivMulAdd(n - q, p, 0);
  }

  lemma ThirdArith(q: int, p: int, n: int)
    requires 1 <= q <= n && p >= 1 && p * n == Quarter
    ensures var phase := (Half + q * p) % Modulus;
            phase / Half == 1 &&
            (q < n ==> (phase / Quarter) % 2 == 0 && (phase % Quarter) / p == q) &&
            (q == n ==> (phase / Quarter) % 2 == 1 && phase % Quarter == 0)
  {
    MulMono(q, n, p);
    if q < n {
      MulMono(q + 1, n, p);
      DivMulAdd(q, p, 0);
    }
  }

  lemma FourthArith(q: int, p: int, n: int)
    requires 1 <= q <= n && p >= 1 && p * n == Quarter
    ensures var phase := (0 - q * p) % Modulus;
            (phase / Quarter) % 2 == 1 && phase / Half == 1 && (phase % Quarter) / p == n - q
  {
    MulMono(q, n, p);
    MulMono(1, q, p);
    assert (0 - q * p) % Modulus % Quarter == (n - q) * p;
    DivMulAdd(n - q, p, 0);
  }

  lemma FirstArith(q: int, p: int, n: int)
    requires 0 <= q < n && p >= 1 && p * n == Quarter
    ensures var phase := (q * p) % Modulus;
            phase == q * p && (phase / Quarter) % 2 == 0 && phase / Half == 0 && (phase % Quarter) / p == q
  {
    MulMono(q + 1, n, p);
    DivMulAdd(q, p, 0);
  }

  lemma ModAddMultiple(k: int, d: int, x: int)
    requires d >= 1
    ensures (k * d + x) % d == x % d
  {
    assert x == (x / d) * d + x % d;
    assert k * d + x == (k + x / d) * d + x % d;
    DivMulAdd(k + x / d, d, x % d);
  }

  lemma Reassemble(phase: nat, p: nat, n: nat)
    requires phase < 0x1_0000_0000 && p >= 1 && p * n == Half
    ensures (phase / Half) * Half + ((phase % Half) / p) * p + phase % p == phase
  {
    var m := phase % Half;
    assert (phase / Half) * Half == ((phase / Half) * n) * p;
    ModAddMultiple((phase / Half) * n, p, m);
  }

  // ---------------------------------------------------------------------------
  // The word operations of the source.

  /** `w >> n`. */
  function ShiftRight(w: Word, n: nat): Word
  {
    DivAtMost(w, Pow2(n));
    w / Pow2(n)
  }

  /** `w << n`, the bits shifted out above bit 31 being lost. */
  function ShiftLeft(w: Word, n: nat): Word
  {
    (w * Pow2(n)) % Modulus
  }

  /** `a + b` on 32-bit unsigned integers. */
  function Add(a: Word, b: Word): Word
  {
    (a + b) % Modulus
  }

  /** `a - b` on 32-bit unsigned integers. */
  function Sub(a: Word, b: Word): Word
  {
    (a - b) % Modulus
  }

  /** `w & ((1 << n) - 1)`: the n bits below bit n. */
  function LowBits(w: Word, n: nat): Word
  {
    w % Pow2(n)
  }

  /** Bit 31, the sign bit. */
  function SignOf(w: Word): (s: nat)
    ensures s <= 1
  {
    w / Half
  }

  /**
   * `w & 0x80000000`: the sign bit in place. It is 0 or 2^31, 0 exactly for
   * a non-negative pattern, and together with the magnitude it makes up the
   * word.
   */
  function SignMask(w: Word): (r: Word)
    ensures r == 0 || r == Half
    ensures r == 0 <==> SignOf(w) == 0
    ensures r + Magnitude(w) == w
  {
    SignOf(w) * Half
  }

  /** `w & 0x7fffffff`: every bit but the sign bit. */
  function Magnitude(w: Word): (m: Word)
    ensures m < Half
  {
    w % Half
  }

  /** `w & 0x3fffffff`: the 30 bits below the direction bit. */
  function QuarterBits(w: Word): (m: Word)
    ensures m < Quarter
  {
    w % Quarter
  }

  /** `(w & 0x40000000) >> 30`: the direction bit, 0 forward and 1 backward. */
  function Direction(w: Word): (d: nat)
    ensures d <= 1
  {
    (w / Quarter) % 2
  }

  /**
   * `w ^ -dir` for dir in {0, 1}: -0 is no bits, so w is unchanged; -1 is all
   * ones, so every bit is complemented: the sign bit flips, the 31 bits
   * below it are complemented, and adding one gives the two's complement
   * negation of w.
   */
  function XorNegated(w: Word, dir: nat): (r: Word)
    requires dir <= 1
    ensures dir == 0 ==> r == w
    ensures dir == 1 ==> SignOf(r) == 1 - SignOf(w) && Magnitude(r) == Half - 1 - Magnitude(w)
    ensures dir == 1 ==> Add(r, 1) == Sub(0, w)
  {
    ComplementArith(w);
    if dir == 0 then w else Modulus - 1 - w
  }

  /** A pattern whose sign bit is clear: a non-negative float. */
  predicate NonNegative(w: Word)
  {
    SignOf(w) == 0
  }

  /** The entries below index `n` are all non-negative floats. */
  ghost predicate NonNegativeBelow(table: Table, n: nat)
  {
    forall i: Word :: i < n ==> NonNegative(table(i))
  }

  /** `w ^ 0x80000000`: negating a float flips its sign bit and keeps the rest. */
  function Negate(w: Word): (r: Word)
    ensures Magnitude(r) == Magnitude(w)
    ensures SignOf(r) == 1 - SignOf(w)
  {
    if SignOf(w) == 0 then w + Half else w - Half
  }

  /** Negating twice gives the pattern back. */
  lemma NegateTwice(w: Word)
    ensures Negate(Negate(w)) == w
  {
  }

  /**
   * `w | (phase & 0x80000000)` (`val.i |= sign`): bits 0..30 are those of
   * `w`, and bit 31 is set when it is set in `w` or in `phase`.
   */
  function InjectSign(w: Word, phase: Word): (r: Word)
    ensures Magnitude(r) == Magnitude(w)
    ensures SignOf(r) == if SignOf(w) == 1 || SignOf(phase) == 1 then 1 else 0
  {
    if SignOf(phase) == 1 && SignOf(w) == 0 then w + Half else w
  }

  /** On a non-negative entry, sign injection gives the entry the phase's sign. */
  lemma InjectSignNonNegative(w: Word, phase: Word)
    requires NonNegative(w)
    ensures InjectSign(w, phase) == if SignOf(phase) == 0 then w else Negate(w)
  {
  }

  // ---------------------------------------------------------------------------
  // Half-period tables (atH): the table holds the first half of a waveform
  // whose second half is the negation of the first, so it has 2^(31 - fbits)
  // entries.

  /**
   * The table index that atH reads, `(phase & 0x7fffffff) >> fbits`: the
   * integer part of the magnitude. It is below 2^(31 - fbits), the size of
   * the table.
   */
  function IndexH(fbits: nat, phase: Word): (i: Word)
    requires fbits <= 31
    ensures i < Pow2(31 - fbits)
  {
    Pow2Add(fbits, 31 - fbits);
    Pow2Constants();
    DivBelow(Magnitude(phase), Pow2(fbits), Pow2(31 - fbits));
    ShiftRight(Magnitude(phase), fbits)
  }

  /**
   * Nothing of the phase is lost: its sign bit, the index atH reads and the
   * fractional bits below `fbits` put back together give the phase.
   */
  lemma IndexHReassembles(fbits: nat, phase: Word)
    requires fbits <= 31
    ensures SignMask(phase) + IndexH(fbits, phase) * Pow2(fbits) + LowBits(phase, fbits) == phase
  {
    Pow2Add(fbits, 31 - fbits);
    Pow2Constants();
    Reassemble(phase, Pow2(fbits), Pow2(31 - fbits));
  }

  /** atH reads the same index half a period later. */
  lemma IndexHHalfPeriod(fbits: nat, phase: Word)
    requires fbits <= 31
    ensures IndexH(fbits, Add(phase, Half)) == IndexH(fbits, phase)
  {
    HalfTurn(phase);
  }

  /** Adding half a period flips the sign bit and keeps the magnitude. */
  lemma HalfTurn(phase: Word)
    ensures SignOf(Add(phase, Half)) == 1 - SignOf(phase)
    ensures Magnitude(Add(phase, Half)) == Magnitude(phase)
  {
    if phase < Half {
      assert Add(phase, Half) == phase + Half;
    } else {
      assert Add(phase, Half) == phase - Half;
    }
  }

  /** atH: the table entry at the phase's index, with the phase's sign bit OR'd in. */
  function AtH(table: Table, fbits: nat, phase: Word): (r: Word)
    requires fbits <= 31
    ensures Magnitude(r) == Magnitude(table(IndexH(fbits, phase)))
    ensures SignOf(r) == if SignOf(table(IndexH(fbits, phase))) == 1 || SignOf(phase) == 1 then 1 else 0
  {
    InjectSign(table(IndexH(fbits, phase)), phase)
  }

  /**
   * With a non-negative table, atH returns the entry at the phase's index in
   * the first half period and that entry negated in the second.
   */
  lemma AtHSign(table: Table, fbits: nat, phase: Word)
    requires fbits <= 31 && NonNegativeBelow(table, Pow2(31 - fbits))
    ensures AtH(table, fbits, phase)
            == if SignOf(phase) == 0 then table(IndexH(fbits, phase)) else Negate(table(IndexH(fbits, phase)))
  {
    InjectSignNonNegative(table(IndexH(fbits, phase)), phase);
  }

  /** With a non-negative table, advancing the phase by half a period negates atH. */
  lemma AtHHalfPeriod(table: Table, fbits: nat, phase: Word)
    requires fbits <= 31 && NonNegativeBelow(table, Pow2(31 - fbits))
    ensures AtH(table, fbits, Add(phase, Half)) == Negate(AtH(table, fbits, phase))
  {
    var t := table(IndexH(fbits, phase));
    IndexHHalfPeriod(fbits, phase);
    HalfTurn(phase);
    AtHSign(table, fbits, phase);
    AtHSign(table, fbits, Add(phase, Half));
    if SignOf(phase) == 1 {
      NegateTwice(t);
    }
  }

  // ---------------------------------------------------------------------------
  // Quarter-period tables (atQ): the table holds the first quarter of a
  // waveform that is symmetric about the quarter point and antisymmetric
  // about the half point, together with the sample at the quarter point,
  // so it has N + 1 entries with N = 2^(30 - fbits).

  /**
   * The table index that atQ reads,
   * `(((phase ^ -dir) + (dir << fbits)) & 0x7fffffff) >> fbits`: the bits
   * below the sign bit, negated in two's complement at the index's scale
   * when the direction bit is set (complement, then add one index step),
   * shifted down to the integer part.
   */
  function IndexQ(fbits: nat, phase: Word): (i: Word)
    requires fbits <= 30
    ensures Direction(phase) == 0 ==> i == ShiftRight(QuarterBits(phase), fbits)
    ensures Direction(phase) == 1 ==> i == Pow2(30 - fbits) - ShiftRight(QuarterBits(phase), fbits)
  {
    var dir := Direction(phase);
    if dir == 0 then
      FoldForward(fbits, phase);
      ShiftRight(Magnitude(Add(XorNegated(phase, dir), ShiftLeft(dir, fbits))), fbits)
    else
      FoldBackward(fbits, phase);
      ShiftRight(Magnitude(Add(XorNegated(phase, dir), ShiftLeft(dir, fbits))), fbits)
  }

  /** Forward, the xor and the added step are both zero: the index is the integer part of the 30 low bits. */
  lemma FoldForward(fbits: nat, phase: Word)
    requires fbits <= 30 && Direction(phase) == 0
    ensures ShiftRight(Magnitude(Add(XorNegated(phase, 0), ShiftLeft(0, fbits))), fbits)
            == ShiftRight(QuarterBits(phase), fbits)
  {
    assert Magnitude(Add(XorNegated(phase, 0), ShiftLeft(0, fbits))) == QuarterBits(phase);
  }

  /** Backward, complementing and adding one index step counts the index down from N. */
  lemma FoldBackward(fbits: nat, phase: Word)
    requires fbits <= 30 && Direction(phase) == 1
    ensures ShiftRight(Magnitude(Add(XorNegated(phase, 1), ShiftLeft(1, fbits))), fbits)
            == Pow2(30 - fbits) - ShiftRight(QuarterBits(phase), fbits)
  {
    Pow2Add(fbits, 30 - fbits);
    Pow2Constants();
    BackwardArith(phase, Pow2(fbits), Pow2(30 - fbits));
  }

  /** Forward (direction bit clear): atQ reads the phase's integer part, which is below N. */
  lemma IndexQForward(fbits: nat, phase: Word)
    requires fbits <= 30 && Direction(phase) == 0
    ensures IndexQ(fbits, phase) == ShiftRight(QuarterBits(phase), fbits)
    ensures IndexQ(fbits, phase) < Pow2(30 - fbits)
  {
    Pow2Add(fbits, 30 - fbits);
    Pow2Constants();
    DivBelow(QuarterBits(phase), Pow2(fbits), Pow2(30 - fbits));
  }

  /** Backward (direction bit set): atQ reads N minus the phase's integer part, which is in [1, N]. */
  lemma IndexQBackward(fbits: nat, phase: Word)
    requires fbits <= 30 && Direction(phase) == 1
    ensures IndexQ(fbits, phase) == Pow2(30 - fbits) - ShiftRight(QuarterBits(phase), fbits)
    ensures 1 <= IndexQ(fbits, phase) <= Pow2(30 - fbits)
  {
    Pow2Add(fbits, 30 - fbits);
    Pow2Constants();
    DivBelow(QuarterBits(phase), Pow2(fbits), Pow2(30 - fbits));
  }

  /** Every index atQ reads is at most N, so the table needs N + 1 entries. */
  lemma IndexQBound(fbits: nat, phase: Word)
    requires fbits <= 30
    ensures IndexQ(fbits, phase) <= Pow2(30 - fbits)
  {
    if Direction(phase) == 0 {
      IndexQForward(fbits, phase);
    } else {
      IndexQBackward(fbits, phase);
    }
  }

  /** atQ: the table entry at the phase's folded index, with the phase's sign bit OR'd in. */
  function AtQ(table: Table, fbits: nat, phase: Word): (r: Word)
    requires fbits <= 30
    ensures Magnitude(r) == Magnitude(table(IndexQ(fbits, phase)))
    ensures SignOf(r) == if SignOf(table(IndexQ(fbits, phase))) == 1 || SignOf(phase) == 1 then 1 else 0
  {
    InjectSign(table(IndexQ(fbits, phase)), phase)
  }

  /** With a non-negative entry q, atQ at the phase of sample q (q < N) returns that entry. */
  lemma AtQFirstQuadrant(table: Table, fbits: nat, q: Word)
    requires fbits <= 30 && NonNegative(table(q))
    requires q < Pow2(30 - fbits)
    ensures AtQ(table, fbits, ShiftLeft(q, fbits)) == table(q)
  {
    Pow2Add(fbits, 30 - fbits);
    Pow2Constants();
    FirstArith(q, Pow2(fbits), Pow2(30 - fbits));
    IndexQForward(fbits, ShiftLeft(q, fbits));
    InjectSignNonNegative(table(q), ShiftLeft(q, fbits));
  }

  /** Reflection about the quarter point: at 2^31 - q * 2^fbits atQ returns entry q. */
  lemma AtQSecondQuadrant(table: Table, fbits: nat, q: Word)
    requires fbits <= 30 && NonNegative(table(q))
    requires 1 <= q <= Pow2(30 - fbits)
    ensures AtQ(table, fbits, Sub(Half, ShiftLeft(q, fbits))) == table(q)
  {
    Pow2Add(fbits, 30 - fbits);
    Pow2Constants();
    SampleBound(q, Pow2(fbits), Pow2(30 - fbits));
    var phase := Sub(Half, ShiftLeft(q, fbits));
    SecondArith(q, Pow2(fbits), Pow2(30 - fbits));
    IndexQBackward(fbits, phase);
    InjectSignNonNegative(table(q), phase);
  }

  /** Point inversion about the half point: at 2^31 + q * 2^fbits atQ returns entry q negated. */
  lemma AtQThirdQuadrant(table: Table, fbits: nat, q: Word)
    requires fbits <= 30 && NonNegative(table(q))
    requires q <= Pow2(30 - fbits)
    ensures AtQ(table, fbits, Add(Half, ShiftLeft(q, fbits))) == Negate(table(q))
  {
    ThirdQuadrantIndex(fbits, q);
    InjectSignNonNegative(table(q), Add(Half, ShiftLeft(q, fbits)));
  }

  /** In the third quadrant the phase is negative and atQ reads index q. */
  lemma ThirdQuadrantIndex(fbits: nat, q: Word)
    requires fbits <= 30 && q <= Pow2(30 - fbits)
    ensures SignOf(Add(Half, ShiftLeft(q, fbits))) == 1
    ensures IndexQ(fbits, Add(Half, ShiftLeft(q, fbits))) == q
  {
    if q == 0 {
      HalfPoint(fbits);
    } else if q < Pow2(30 - fbits) {
      ThirdForward(fbits, q);
    } else {
      ThirdBackward(fbits, q);
    }
  }

  /** At the half point the phase is negative, the direction bit is clear and atQ reads index 0. */
  lemma HalfPoint(fbits: nat)
    requires fbits <= 30
    ensures Add(Half, ShiftLeft(0, fbits)) == Half
    ensures SignOf(Half) == 1 && IndexQ(fbits, Half) == 0
  {
    assert Direction(Half) == 0 && QuarterBits(Half) == 0;
  }

  /** Past the half point, before the direction bit: the forward index q. */
  lemma ThirdForward(fbits: nat, q: Word)
    requires fbits <= 30 && 1 <= q < Pow2(30 - fbits)
    ensures SignOf(Add(Half, ShiftLeft(q, fbits))) == 1
    ensures IndexQ(fbits, Add(Half, ShiftLeft(q, fbits))) == q
  {
    Pow2Add(fbits, 30 - fbits);
    Pow2Constants();
    SampleBound(q, Pow2(fbits), Pow2(30 - fbits));
    ThirdArith(q, Pow2(fbits), Pow2(30 - fbits));
  }

  /** At the three-quarter point the direction bit is set and the backward index is N. */
  lemma ThirdBackward(fbits: nat, q: Word)
    requires fbits <= 30 && q == Pow2(30 - fbits)
    ensures SignOf(Add(Half, ShiftLeft(q, fbits))) == 1
    ensures IndexQ(fbits, Add(Half, ShiftLeft(q, fbits))) == q
  {
    Pow2Add(fbits, 30 - fbits);
    Pow2Constants();
    SampleBound(q, Pow2(fbits), Pow2(30 - fbits));
    ThirdArith(q, Pow2(fbits), Pow2(30 - fbits));
  }

  /** Both reflections: at -q * 2^fbits atQ returns entry q negated. */
  lemma AtQFourthQuadrant(table: Table, fbits: nat, q: Word)
    requires fbits <= 30 && NonNegative(table(q))
    requires 1 <= q <= Pow2(30 - fbits)
    ensures AtQ(table, fbits, Sub(0, ShiftLeft(q, fbits))) == Negate(table(q))
  {
    Pow2Add(fbits, 30 - fbits);
    Pow2Constants();
    SampleBound(q, Pow2(fbits), Pow2(30 - fbits));
    var phase := Sub(0, ShiftLeft(q, fbits));
    FourthArith(q, Pow2(fbits), Pow2(30 - fbits));
    IndexQBackward(fbits, phase);
    InjectSignNonNegative(table(q), phase);
  }

  // ---------------------------------------------------------------------------
  // Fractional phase (tbl::fraction)

  /** The pattern of 1.0f: sign 0, exponent 127, mantissa 0. */
  const One: Word := 0x3f80_0000

  /** The mantissa field of a float's bit pattern, `w & 0x7fffff`. */
  function Mantissa(w: Word): (m: Word)
    ensures m < 0x80_0000
  {
    w % 0x80_0000
  }

  /**
   * `(w >> 9) | 0x3f800000`: the float 1.m whose mantissa m is the top 23
   * bits of `w`. The shifted word has no bit in common with the pattern of
   * 1.0f, so the OR is a sum.
   */
  function OnePlusFraction(w: Word): (r: Word)
    ensures r / 0x80_0000 == 0x7f
    ensures Mantissa(r) == ShiftRight(w, 9)
  {
    assert Pow2(9) == 512;
    ShiftRight(w, 9) + One
  }

  /**
   * The pattern that fraction(bits, phase) builds before subtracting 1.0f:
   * the fractional bits of the phase, `phase << bits`, as the mantissa of 1.m.
   */
  function FractionBits(bits: nat, phase: Word): (r: Word)
    requires bits <= 31
    ensures r / 0x80_0000 == 0x7f
    ensures Mantissa(r) == ShiftRight(ShiftLeft(phase, bits), 9)
    ensures 0.0 <= FractionValue(r) < 1.0
  {
    OnePlusFraction(ShiftLeft(phase, bits))
  }

  /** At phase 0 the pattern is exactly 1.0f, so fraction returns 0. */
  lemma FractionAtZero(bits: nat)
    requires bits <= 31
    ensures FractionBits(bits, 0) == One
  {
  }

  /** The value fraction returns for a pattern of 1.m: 1.m - 1.0 = m / 2^23, which is exact. */
  function FractionValue(w: Word): real
  {
    Mantissa(w) as real / 8388608.0
  }

  /** The fraction lies in [0, 1), and is 0 at the pattern of 1.0f. */
  lemma FractionInUnitInterval(w: Word)
    ensures 0.0 <= FractionValue(OnePlusFraction(w)) < 1.0
    ensures FractionValue(One) == 0.0
  {
  }

  /**
   * The mantissa is monotone in the fractional bits of the phase: for
   * w1 <= w2 the mantissas keep that order.
   */
  lemma MantissaMonotone(w1: Word, w2: Word)
    requires w1 <= w2
    ensures Mantissa(OnePlusFraction(w1)) <= Mantissa(OnePlusFraction(w2))
  {
    assert Pow2(9) == 512;
  }

  /**
   * So is the whole pattern, as an unsigned word; with sign and exponent
   * fixed, the floats 1.m keep the order too.
   */
  lemma OnePlusFractionMonotone(w1: Word, w2: Word)
    requires w1 <= w2
    ensures OnePlusFraction(w1) <= OnePlusFraction(w2)
  {
    assert Pow2(9) == 512;
  }
}
