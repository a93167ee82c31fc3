# Gamma wavetable core in Dafny

This project models the integer and index arithmetic at the core of the Gamma
signal-processing library's table module (`include/tbl.h`) and two small
integer routines of its scalar module (`src/scl.cpp`). The floating-point
waveform math around them is only abstracted.

- **Lookup** (`lookup.dfy`) covers the fixed-point phase readers `tbl::atH`,
  `tbl::atQ` and `tbl::fraction`.
  - A phase is a 32-bit wrapping accumulator. Bit 31 is the sign, bit 30 is
    the direction (quarter tables only), the bits from `fbits` up are the
    table index, and the bits below are the fraction.
  - Words are unsigned values in [0, 2^32).
  - Each mask, shift, xor and OR of the source is written as the arithmetic
    it performs on its operands.
  - Table entries are the bit patterns of floats, so the sign injection
    `val.i |= sign` is exact.
- **Harmonics** (`harmonics.dfy`) covers the harmonic-selection loops of
  `impulseSum(dst, len, lo, hi)`, `sawSum`, `squareSum` and `triangleSum`,
  plus `maxHarmonics`.
  - Each term a harmonic adds at a buffer index is a parameter.
  - What is proved is which harmonics are visited, in which order, with
    which sign, and which indices receive them.
- **Waves** (`waves.dfy`) covers `cosine` and `sine`, which write each sample
  and its negation half a buffer apart, and the closed-form
  `impulseSum(dst, len)`.
- **Windows** (`windows.dfy`) covers:
  - `WinType::string`;
  - the `SYM_WIN` windows (Bartlett, Blackman, Blackman-Harris, Hamming,
    Hann and Welch), with each shape function as a parameter;
  - `rectangle` and `nyquist`;
  - the `window` dispatch.
- **MultiWave** (`multiwave.dfy`) covers `multiWave`, the builder of a stack
  of band-limited tables.
  - The summation filler is abstracted to its effect: it appends the
    harmonics lo..hi to a table's content.
  - The method returns the calls and copies it makes.
- **Scl** (`scl.dfy`) covers the base-36 digit codec `base10To36` and
  `base36To10`, and the note-name parser at the start of `freq`. The parser
  is modelled up to the semitone number n; `freq` then computes 2^(n / 12)
  times a constant.

Two facts of the code that shape the model:

- **multiWave table order.** Table order - 1 holds the fundamental alone,
  and table 0 holds the most harmonics.
- **SYM_WIN mirroring.** The window is mirrored about len / 2:
  dst[k] == dst[len - k] for 1 <= k < len. The writer moving down from the
  end starts at index len - 1, one step behind the writer moving up.

Powers of two and consecutive harmonic ranges are shared by Lookup,
Harmonics and MultiWave. They are defined once, in `basics.dfy`.

## Model

| member | source | states |
|---|---|---|
| Lookup.SignOf | include/tbl.h:562 | the sign bit `phase & 0x80000000`, shifted down, is 0 or 1 |
| Lookup.SignMask | include/tbl.h:562 | `phase & 0x80000000` is 0 or 2^31; it is 0 iff the sign bit is clear, and it plus `phase & 0x7fffffff` is the phase |
| Lookup.Magnitude | include/tbl.h:581 | `phase & 0x7fffffff` lies below 2^31 |
| Lookup.QuarterBits | include/tbl.h:151-152 | the 30 bits below the direction bit lie below 2^30 |
| Lookup.Direction | include/tbl.h:563 | the direction `(phase & 0x40000000) >> 30` is 0 or 1 |
| Lookup.XorNegated | include/tbl.h:564 | `w ^ -dir`: w itself for dir = 0; for dir = 1 the sign bit flips, the low 31 bits are complemented, and adding one gives -w mod 2^32 |
| Lookup.InjectSign | include/tbl.h:582 | `w \| (phase & 0x80000000)` keeps bits 0..30 of w; bit 31 is set iff it is set in w or in the phase |
| Lookup.InjectSignNonNegative | include/tbl.h:582 | on a non-negative entry, sign injection returns it unchanged for a positive phase, and returns its negation for a negative one |
| Lookup.IndexH | include/tbl.h:128-139 | the index `(phase & 0x7fffffff) >> fbits` that atH reads (line 581) is below 2^(31 - fbits), the table size implied by fbits = 31 - bits |
| Lookup.IndexHReassembles | include/tbl.h:135-139 | sign bit + index * 2^fbits + fractional bits == phase: the three fields partition the phase |
| Lookup.IndexHHalfPeriod | include/tbl.h:128-129 | half a period later (phase + 2^31 mod 2^32) atH reads the same index |
| Lookup.AtH | include/tbl.h:579-584 | the result has the magnitude bits of the table entry at IndexH; its sign bit is the OR of the entry's and the phase's |
| Lookup.AtHSign | include/tbl.h:128-139 | with non-negative table entries, atH gives entry IndexH for a positive phase and its negation for a negative one |
| Lookup.AtHHalfPeriod | include/tbl.h:128-129 | with non-negative entries, advancing the phase by half a period negates atH: the second half mirrors the first negated |
| Lookup.IndexQ | include/tbl.h:563-564 | the folded index of atQ: `(phase & 0x3fffffff) >> fbits` when the direction bit is clear, and N minus it when it is set |
| Lookup.FoldForward | include/tbl.h:564 | with direction 0, the xor and the added `dir << fbits` vanish and the mask leaves the 30 low bits |
| Lookup.FoldBackward | include/tbl.h:564 | with direction 1, complementing the phase and adding one index step, masked and shifted, gives N - `(phase & 0x3fffffff) >> fbits` |
| Lookup.IndexQForward | include/tbl.h:141-153 | direction bit clear: atQ reads `(phase & 0x3fffffff) >> fbits`, which is below N = 2^(30 - fbits) |
| Lookup.IndexQBackward | include/tbl.h:560-567 | direction bit set: atQ reads N - `(phase & 0x3fffffff) >> fbits`, which is in [1, N] |
| Lookup.IndexQBound | include/tbl.h:141-142 | every index atQ reads is at most N, so the table needs N + 1 entries |
| Lookup.AtQ | include/tbl.h:560-567 | the result has the magnitude bits of the entry at IndexQ; its sign bit is the OR of the entry's and the phase's |
| Lookup.AtQFirstQuadrant | include/tbl.h:141-153 | at phase q << fbits (q < N), atQ returns entry q |
| Lookup.AtQSecondQuadrant | include/tbl.h:141-153 | at phase 2^31 - (q << fbits) (1 <= q <= N), atQ returns entry q: reflection about the quarter point |
| Lookup.AtQThirdQuadrant | include/tbl.h:141-153 | at phase 2^31 + (q << fbits) (0 <= q <= N), atQ returns entry q negated; q = 0 is phase 2^31 and q = N sets the direction bit |
| Lookup.AtQFourthQuadrant | include/tbl.h:141-153 | at phase -(q << fbits), atQ returns entry q negated |
| Lookup.Mantissa | include/tbl.h:158 | the 23-bit mantissa field lies below 2^23 |
| Lookup.OnePlusFraction | include/tbl.h:594-595 | `w >> 9 \| 0x3f800000` has sign 0 and exponent 127, and its mantissa is w >> 9 |
| Lookup.FractionBits | include/tbl.h:595 | `phase << bits >> 9 \| 0x3f800000` is a float 1.m (sign 0, exponent 127) whose mantissa is the top 23 bits of `phase << bits`, so 1.m - 1 lies in [0, 1) |
| Lookup.FractionAtZero | include/tbl.h:594-597 | at phase 0 the pattern is exactly 1.0f, so fraction returns 0 |
| Lookup.FractionInUnitInterval | include/tbl.h:155-159 | the exact value 1.m - 1 lies in [0, 1) and is 0 at the pattern of 1.0f |
| Lookup.MantissaMonotone | include/tbl.h:594-595 | the mantissa is monotone non-decreasing in `phase << bits` |
| Lookup.OnePlusFractionMonotone | include/tbl.h:594-596 | the whole pattern is monotone non-decreasing in `phase << bits` |
| Harmonics.MaxHarmonics | include/tbl.h:471 | n harmonics fit: 2n <= len < 2n + 2 |
| Harmonics.OrOne | include/tbl.h:327 | `hrmLo \| 1` is odd and is hrmLo or hrmLo + 1 |
| Harmonics.OddSpanMembers | include/tbl.h:327-330 | after `lo \|= 1`, step 2 visits exactly the odd integers in [lo, hi], in steps of two |
| Harmonics.OddSpanEmpty | include/tbl.h:359-364 | no harmonic is visited iff (lo \| 1) > hi |
| Harmonics.TriangleSign | include/tbl.h:361-370 | each sign is +1 or -1 |
| Harmonics.TriangleSignStep | include/tbl.h:370 | two odd harmonics apart the sign flips, as `factor = -factor` does |
| Harmonics.TriangleSignsAlternate | include/tbl.h:364-370 | along the odd selection, consecutive harmonics get opposite signs |
| Harmonics.FirstTriangleSign | include/tbl.h:361 | the initial sign from bit 1 of lo \| 1 is the sign of harmonic lo \| 1: positive iff it is 1 mod 4 |
| Harmonics.AddHarmonic | include/tbl.h:374-377 | the inner loop adds sign * term(h, j) to exactly the indices first..last, and nothing else changes |
| Harmonics.ImpulseSumRange | include/tbl.h:273-288 | indices 0..len/2 receive the sum over harmonics lo..hi; the rest is unchanged |
| Harmonics.SawSum | include/tbl.h:293-313 | indices 1..len/2 - 1 receive the sum over harmonics lo..hi; the rest is unchanged |
| Harmonics.SquareSum | include/tbl.h:319-343 | indices 1..len/4 receive the sum over the odd harmonics in [lo, hi]; the rest is unchanged |
| Harmonics.TriangleSum | include/tbl.h:351-378 | indices 1..len/4 receive the sum over the odd harmonics h in [lo, hi], each with sign TriangleSign(h) |
| Waves.HalfWaveAntisymmetric | include/tbl.h:197-214 | entry h + k is the negation of entry k (h = len / 2); the first half holds the first value then the samples; entries past 2h are untouched |
| Waves.FillHalfWave | include/tbl.h:197-214 | the loop writes exactly the half-wave table: first value, samples, and their negations half a buffer on |
| Waves.Cosine | include/tbl.h:197-214 | cosine writes 1 at 0, -1 at len/2, and the cosine samples and their negations between |
| Waves.Sine | include/tbl.h:230-247 | sine writes 0 at 0 and at len/2, and the sine samples and their negations between |
| Waves.ImpulseSum | include/tbl.h:263-271 | writes len/2 - 1 at 0, 0 at every odd index, and -1 at every even index in [2, 2(len/2)); an odd length's last entry is untouched |
| Waves.ImpulsePrefixSum | include/tbl.h:263-271 | the first m written entries sum to (len/2 - 1) minus the number of -1s among them |
| Waves.ImpulseSumsToZero | include/tbl.h:263-271 | for even len, all len entries are written and sum to 0: no DC component |
| Windows.Name | include/tbl.h:35-43 | the name is "Unknown" iff the value is not one of the eight enumerators |
| Windows.NameInjective | include/tbl.h:35-43 | different window types have different names |
| Windows.SymWinMirrored | include/tbl.h:425-435 | entry k is sample k for k <= len/2, and dst[k] == dst[len - k] for 1 <= k < len |
| Windows.SymWin | include/tbl.h:425-435 | the loop writes every one of the len entries, as the symmetric window table |
| Windows.BartlettWindow | include/tbl.h:437 | the symmetric window of the phase itself, over a period of 2 from 0 |
| Windows.BlackmanWindow | include/tbl.h:438 | the symmetric window of the Blackman shape over 2 pi from 0 |
| Windows.BlackmanHarrisWindow | include/tbl.h:439 | the symmetric window of the Blackman-Harris shape over 2 pi from 0 |
| Windows.HammingWindow | include/tbl.h:440 | the symmetric window of the Hamming shape over 2 pi from 0 |
| Windows.HannWindow | include/tbl.h:441 | the symmetric window of the Hann shape over 2 pi from 0 |
| Windows.WelchWindow | include/tbl.h:442 | the symmetric window of the Welch shape over a period of 2 from -1 |
| Windows.RectangleWindow | include/tbl.h:446 | all len entries are 1 |
| Windows.NyquistAlternates | include/tbl.h:448-454 | the Nyquist table starts at 1 and alternates in sign; an odd length's last entry is untouched |
| Windows.NyquistWindow | include/tbl.h:448-454 | the loop writes len/2 pairs (1, -1) and nothing else |
| Windows.WindowCases | include/tbl.h:412-423 | the six symmetric types give mirrored windows, Nyquist gives the alternating table, and Rectangle and any unrecognised value give all ones |
| Windows.Window | include/tbl.h:412-423 | the dispatch leaves exactly the window table of its type; the default branch is a rectangle |
| Basics.Range | include/tbl.h:301 | the loop `for (i = lo; i <= hi; ++i)`, and one call of multiWave's filler, visit hi - lo + 1 harmonics, none when hi < lo |
| Basics.RangeMembers | include/tbl.h:301 | the range holds every harmonic in [lo, hi] and nothing else, the k-th being lo + k, each once, in increasing order |
| MultiWave.Schedule | include/tbl.h:395-405 | one call per table; every call addresses a table inside the buffer and adds at least one harmonic; the tables go strictly down from order - 1 to 0 |
| MultiWave.Copies | include/tbl.h:402-404 | order - 1 copies, each from a table inside the buffer into the table just before it, walking down from table order - 1 to table 0 |
| Basics.RangeSplit | include/tbl.h:405-408 | adjacent ranges [lo, mid] and [mid + 1, hi] together are [lo, hi] |
| MultiWave.ScheduleRecurrence | include/tbl.h:385-410 | calls are (1, 1) on table order - 1, then (prevHi + 1, 2 prevHi) one table down each time; with order 1 there is no copy |
| MultiWave.AccumulatedIsPrefix | include/tbl.h:385-390 | calls 0..i together add exactly the harmonics 1..2^i, in order |
| MultiWave.MultiWave | include/tbl.h:391-410 | returns exactly the schedule of calls and copies; table t ends with the last table's initial content plus harmonics 1..2^(order - 1 - t) |
| Scl.Within | src/scl.cpp:40 | `scl::within(v, lo, hi)`, taken to be the closed interval lo <= v <= hi (its definition in scl.h is not part of this model) |
| Scl.ToLower | src/scl.cpp:19 | 'A'..'Z' map to 'a'..'z'; every other character is unchanged |
| Scl.Base10To36 | src/scl.cpp:12-16 | every value yields a lower-case base-36 digit; a value outside 0..35 yields '0' |
| Scl.Base36To10 | src/scl.cpp:18-23 | the result is in 0..35, and it is 0 for a non-alphanumeric character |
| Scl.DigitRoundTrip | src/scl.cpp:12-23 | base36To10(base10To36(v)) == v for 0 <= v <= 35 |
| Scl.CharRoundTrip | src/scl.cpp:12-23 | base10To36(base36To10(c)) is c in lower case, for every alphanumeric c |
| Scl.Base36CaseInsensitive | src/scl.cpp:19 | decoding ignores case |
| Scl.Base10To36Injective | src/scl.cpp:12-16 | distinct values in 0..35 get distinct digits |
| Scl.Natural | src/scl.cpp:43-44 | each natural note's semitone lies in 0..11 |
| Scl.NaturalsFormMajorScale | src/scl.cpp:43-44 | c d e f g a b give 0 2 4 5 7 9 11; distinct letters give distinct semitones |
| Scl.Accidental | src/scl.cpp:47-49 | +1 exactly for '+', -1 exactly for '-', otherwise 0 |
| Scl.NoteNumber | src/scl.cpp:37-53 | there is no semitone number (freq returns 0) iff the first character is not in 'a'..'g' |
| Scl.ParseNote | src/scl.cpp:37-54 | reading the string character by character as freq does gives NoteNumber |
| Scl.SharpRaises | src/scl.cpp:47 | a '+' raises the number by one, and the octave digit moves to the third character |
| Scl.FlatLowers | src/scl.cpp:48 | a '-' lowers the number by one |
| Scl.SpaceIsNatural | src/scl.cpp:49 | a space in the accidental position is skipped |
| Scl.OctaveStep | src/scl.cpp:51 | after an accidental, the next octave digit is twelve semitones higher |
| Scl.OctaveStepNatural | src/scl.cpp:51 | with no accidental, the next octave digit is twelve semitones higher too |
| Scl.NoteExamples | src/scl.cpp:37-54 | "a4" is 57 and "c+0" is 1; "h4" and "" have no number |

## Left out

- The sample values are left out. They are transcendental and
  floating-point: cos, sin, the window shapes, and the amplitudes of the
  summation fillers. They appear as function parameters, and phases are
  exact reals.
- The IEEE-754 meaning of the punned patterns is left out, except that the
  value of 1.m - 1.0 is stated as m / 2^23.
- The mirroring after the summation loops is left out (`mem::mirrorR`,
  `arr::mirror_dp`, `arr::mirror_dq`). Their code is not part of this model.
  The Harmonics methods stop before that step.
- `mem::copy` and `mem::set` are modelled by their effect: a whole table
  assigned, or a counted loop. `LOOP` and `LOOP_P` are plain counted loops.
- `cosSin`, `decay`, `sinusoid`, `poly`, `phaseIncFactor` and
  `printHexArray` are left out. They are floating-point or console output.
- The `pow` call and the frequency scale factor in `freq` are left out. The
  model computes only the semitone number passed to `pow`.
- `clipMag`, `laguerre`, `legendre` and the colour conversions in
  `src/scl.cpp` are left out. They are floating-point.
- MultiWave: the table contents are unbounded naturals. The model does not
  capture the 32-bit wrap-around of `hrmHi <<= 1` once order exceeds 32. It
  also does not capture the single buffer addressed by `dst -= len`: the
  stack is an array with one entry per table.
- MultiWave.MultiWave: the filler `func` is abstracted to "append lo..hi to
  the table". What it writes into the T samples is not modelled.
- MultiWave.MultiWave: requires order >= 1. With order 0, `order - 1` wraps
  around in the source and the first call writes outside the buffer.
- Harmonics: harmonic numbers and loop counters are unbounded. The model
  does not capture the ULONG wrap-around of `i <= hrmHi` loops with
  hrmHi = 2^32 - 1.
- Waves.Cosine, Waves.Sine and Waves.ImpulseSum: these require len >= 2.
  For smaller len, their counts `(len >> 1) - 1` wrap around in the source.
- Windows.SymWin and its six windows: these require len >= 1. `SYM_WIN`
  writes dst[0] even for an empty buffer.
- Scl: characters are Dafny chars. A character code above 127 is read as
  its code point, not as a possibly signed C char. `tolower` is the "C"
  locale's.
- Scl.ParseNote: the octave character is not checked to be a digit, as in
  the source. Any character gives `(c - 48) * 12`.
- Lookup: ULONG is taken to be 32 bits wide; the source does not fix it.
  If it is wider, atQ, atH and `fraction` do not wrap at 2^32. In
  particular, `fraction`'s `phase << bits` discards the bits shifted above
  bit 31 only when ULONG is 32 bits.
- Harmonics.ImpulseSumRange: requires len >= 1. `LOOP(hLen + 1, ...)` writes
  dst[0] even for an empty buffer.
