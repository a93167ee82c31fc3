/**
 * Window tables (WinType, tbl::window, the SYM_WIN windows, tbl::rectangle,
 * tbl::nyquist).
 *
 * A symmetric window evaluates its shape `eqn` at the phases phs0,
 * phs0 + inc, phs0 + 2 inc, ... with inc = period / len, and writes each
 * value at both ends of the buffer. Phases are exact reals here; the shape
 * functions other than Bartlett's identity are transcendental and given as
 * parameters.
 */
module Windows {

  // The enumerators of WinType::type, by their integer values.
  const Bartlett: int := 0
  const Blackman: int := 1
  const BlackmanHarris: int := 2
  const Hamming: int := 3
  const Hann: int := 4
  const Welch: int := 5
  const Nyquist: int := 6
  const Rectangle: int := 7

  /** M_2PI, to the precision of a double. */
  const TwoPi: real := 6.283185307179586

  /** WinType::string: the enumerator's name, or "Unknown" for any other value. */
  function Name(t: int): (s: string)
    ensures s == "Unknown" <==> !(Bartlett <= t <= Rectangle)
  {
    if t == Bartlett then "Bartlett"
    else if t == Blackman then "Blackman"
    else if t == BlackmanHarris then "BlackmanHarris"
    else if t == Hamming then "Hamming"
    else if t == Hann then "Hann"
    else if t == Welch then "Welch"
    else if t == Nyquist then "Nyquist"
    else if t == Rectangle then "Rectangle"
    else "Unknown"
  }

  /** Different window types have different names. */
  lemma NameInjective(t1: int, t2: int)
    requires Bartlett <= t1 <= Rectangle && Bartlett <= t2 <= Rectangle
    requires Name(t1) == Name(t2)
    ensures t1 == t2
  {
  }

  /** The window shapes (scl::blackman, scl::blackmanHarris, scl::hamming, scl::hann, scl::welch). */
  datatype Shapes = Shapes(
    blackman: real -> real,
    blackmanHarris: real -> real,
    hamming: real -> real,
    hann: real -> real,
    welch: real -> real)

  /** Bartlett's shape: the phase itself. */
  function Identity(x: real): real
  {
    x
  }

  /** The phase at which SYM_WIN evaluates the shape for sample k: phs0 + k * (period / len). */
  function SamplePhase(len: nat, period: real, phs0: real, k: nat): real
    requires len >= 1
  {
    phs0 + k as real * (period / len as real)
  }

  /** A symmetric window of len samples: sample k for k <= len / 2, and sample len - k above that. */
  function SymWinTable(len: nat, period: real, phs0: real, eqn: real -> real): (t: seq<real>)
    requires len >= 1
    ensures |t| == len
  {
    seq(len, k requires 0 <= k < len =>
      if k <= len / 2 then eqn(SamplePhase(len, period, phs0, k))
      else eqn(SamplePhase(len, period, phs0, len - k)))
  }

  /**
   * A symmetric window holds sample k at every k <= len / 2 and is mirrored
   * about len / 2: entry k equals entry len - k for 1 <= k < len.
   */
  lemma SymWinMirrored(len: nat, period: real, phs0: real, eqn: real -> real)
    requires len >= 1
    ensures var t := SymWinTable(len, period, phs0, eqn);
            (forall k :: 0 <= k <= len / 2 ==> t[k] == eqn(SamplePhase(len, period, phs0, k))) &&
            (forall k :: 1 <= k < len ==> t[k] == t[len - k])
  {
  }

  /** The SYM_WIN macro: one shape evaluation per step, written at both ends of the buffer. */
  method SymWin(a: array<real>, period: real, phs0: real, eqn: real -> real)
    requires a.Length >= 1
    modifies a
    ensures a[..] == SymWinTable(a.Length, period, phs0, eqn)
  {
    var len := a.Length;
    var inc := period / len as real;
    var phs := phs0;
    a[0] := eqn(phs);
    var i := 0;
    while i < len / 2
      invariant 0 <= i <= len / 2
      invariant phs == SamplePhase(len, period, phs0, i)
      invariant forall k :: 0 <= k <= i ==> a[k] == eqn(SamplePhase(len, period, phs0, k))
      invariant forall k :: len - i <= k < len ==> a[k] == eqn(SamplePhase(len, period, phs0, len - k))
    {
      phs := phs + inc;
      var val := eqn(phs);
      a[i + 1] := val;
      a[len - 1 - i] := val;
      i := i + 1;
    }
  }

  /** tbl::bartlett: the triangle window, the phase itself over a period of 2 from 0. */
  method BartlettWindow(a: array<real>)
    requires a.Length >= 1
    modifies a
    ensures a[..] == SymWinTable(a.Length, 2.0, 0.0, Identity)
  {
    SymWin(a, 2.0, 0.0, Identity);
  }

  /** tbl::blackman: scl::blackman over a period of 2 pi from 0. */
  method BlackmanWindow(a: array<real>, shapes: Shapes)
    requires a.Length >= 1
    modifies a
    ensures a[..] == SymWinTable(a.Length, TwoPi, 0.0, shapes.blackman)
  {
    SymWin(a, TwoPi, 0.0, shapes.blackman);
  }

  /** tbl::blackmanHarris: scl::blackmanHarris over a period of 2 pi from 0. */
  method BlackmanHarrisWindow(a: array<real>, shapes: Shapes)
    requires a.Length >= 1
    modifies a
    ensures a[..] == SymWinTable(a.Length, TwoPi, 0.0, shapes.blackmanHarris)
  {
    SymWin(a, TwoPi, 0.0, shapes.blackmanHarris);
  }

  /** tbl::hamming: scl::hamming over a period of 2 pi from 0. */
  method HammingWindow(a: array<real>, shapes: Shapes)
    requires a.Length >= 1
    modifies a
    ensures a[..] == SymWinTable(a.Length, TwoPi, 0.0, shapes.hamming)
  {
    SymWin(a, TwoPi, 0.0, shapes.hamming);
  }

  /** tbl::hann: scl::hann over a period of 2 pi from 0. */
  method HannWindow(a: array<real>, shapes: Shapes)
    requires a.Length >= 1
    modifies a
    ensures a[..] == SymWinTable(a.Length, TwoPi, 0.0, shapes.hann)
  {
    SymWin(a, TwoPi, 0.0, shapes.hann);
  }

  /** tbl::welch: scl::welch over a period of 2 from -1. */
  method WelchWindow(a: array<real>, shapes: Shapes)
    requires a.Length >= 1
    modifies a
    ensures a[..] == SymWinTable(a.Length, 2.0, -1.0, shapes.welch)
  {
    SymWin(a, 2.0, -1.0, shapes.welch);
  }

  /** tbl::rectangle: every entry 1 (mem::set, written as a counted loop). */
  method RectangleWindow(a: array<real>)
    modifies a
    ensures forall k :: 0 <= k < a.Length ==> a[k] == 1.0
  {
    var i := 0;
    while i < a.Length
      invariant 0 <= i <= a.Length
      invariant forall k :: 0 <= k < i ==> a[k] == 1.0
    {
      a[i] := 1.0;
      i := i + 1;
    }
  }

  /** What tbl::nyquist leaves in `prev`: 1, -1, 1, -1, ... over the first 2 * (len / 2) entries. */
  function NyquistTable(prev: seq<real>): (t: seq<real>)
    ensures |t| == |prev|
  {
    seq(|prev|, k requires 0 <= k < |prev| =>
      if k >= 2 * (|prev| / 2) then prev[k] else if k % 2 == 0 then 1.0 else -1.0)
  }

  /** The Nyquist table starts at 1 and alternates in sign; only an odd length's last entry is untouched. */
  lemma NyquistAlternates(prev: seq<real>)
    ensures var t := NyquistTable(prev);
            (|prev| >= 2 ==> t[0] == 1.0) &&
            (forall k :: 0 <= k < 2 * (|prev| / 2) - 1 ==> t[k + 1] == -t[k]) &&
            (|prev| % 2 == 1 ==> t[|prev| - 1] == prev[|prev| - 1])
  {
  }

  /** tbl::nyquist: len / 2 pairs (1, -1). */
  method NyquistWindow(a: array<real>)
    modifies a
    ensures a[..] == NyquistTable(old(a[..]))
  {
    var pairs := a.Length / 2;
    var i := 0;
    while i < pairs
      invariant 0 <= i <= pairs
      invariant forall k :: 0 <= k < 2 * i ==> a[k] == if k % 2 == 0 then 1.0 else -1.0
      invariant forall k :: 2 * i <= k < a.Length ==> a[k] == old(a[k])
    {
      a[2 * i] := 1.0;
      a[2 * i + 1] := -1.0;
      i := i + 1;
    }
  }

  /** The types whose filler is SYM_WIN, which writes dst[0] even for an empty buffer. */
  predicate IsSymmetric(t: int)
  {
    Bartlett <= t <= Welch
  }

  /** The table tbl::window leaves in `prev` for type t. */
  function WindowTable(t: int, prev: seq<real>, shapes: Shapes): (r: seq<real>)
    requires |prev| >= 1 || !IsSymmetric(t)
    ensures |r| == |prev|
  {
    var len := |prev|;
    if t == Bartlett then SymWinTable(len, 2.0, 0.0, Identity)
    else if t == Blackman then SymWinTable(len, TwoPi, 0.0, shapes.blackman)
    else if t == BlackmanHarris then SymWinTable(len, TwoPi, 0.0, shapes.blackmanHarris)
    else if t == Hamming then SymWinTable(len, TwoPi, 0.0, shapes.hamming)
    else if t == Hann then SymWinTable(len, TwoPi, 0.0, shapes.hann)
    else if t == Welch then SymWinTable(len, 2.0, -1.0, shapes.welch)
    else if t == Nyquist then NyquistTable(prev)
    else seq(len, k => 1.0)
  }

  /**
   * The dispatch: the six symmetric types give mirrored windows, Nyquist the
   * alternating table, and Rectangle and every value outside the enumeration
   * all ones.
   */
  lemma WindowCases(t: int, prev: seq<real>, shapes: Shapes)
    requires |prev| >= 1 || !IsSymmetric(t)
    ensures IsSymmetric(t) ==>
              forall k :: 1 <= k < |prev| ==> WindowTable(t, prev, shapes)[k] == WindowTable(t, prev, shapes)[|prev| - k]
    ensures t == Nyquist ==> WindowTable(t, prev, shapes) == NyquistTable(prev)
    ensures !(Bartlett <= t <= Nyquist) ==> forall k :: 0 <= k < |prev| ==> WindowTable(t, prev, shapes)[k] == 1.0
  {
    if IsSymmetric(t) {
      var period := if t == Bartlett || t == Welch then 2.0 else TwoPi;
      var phs0 := if t == Welch then -1.0 else 0.0;
      var eqn := if t == Bartlett then Identity
                 else if t == Blackman then shapes.blackman
                 else if t == BlackmanHarris then shapes.blackmanHarris
                 else if t == Hamming then shapes.hamming
                 else if t == Hann then shapes.hann
                 else shapes.welch;
      assert WindowTable(t, prev, shapes) == SymWinTable(|prev|, period, phs0, eqn);
      SymWinMirrored(|prev|, period, phs0, eqn);
    }
  }

  /** tbl::window: dispatch on the window type; an unrecognised type fills a rectangle. */
  method Window(a: array<real>, t: int, shapes: Shapes)
    requires a.Length >= 1 || !IsSymmetric(t)
    modifies a
    ensures a[..] == WindowTable(t, old(a[..]), shapes)
  {
    if t == Bartlett {
      BartlettWindow(a);
    } else if t == Blackman {
      BlackmanWindow(a, shapes);
    } else if t == BlackmanHarris {
      BlackmanHarrisWindow(a, shapes);
    } else if t == Hamming {
      HammingWindow(a, shapes);
    } else if t == Hann {
      HannWindow(a, shapes);
    } else if t == Welch {
      WelchWindow(a, shapes);
    } else if t == Nyquist {
      NyquistWindow(a);
    } else {
      RectangleWindow(a);
    }
  }
}
