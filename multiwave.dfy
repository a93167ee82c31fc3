/**
 * The multi-order wavetable builder (tbl::multiWave).
 *
 * multiWave fills `order` consecutive tables of one buffer. It calls the
 * summation filler `func` on the last table with harmonic 1 alone, then
 * steps back one table at a time, copying the table just filled into the
 * previous one and adding the next, doubling harmonic range to it. Table 0 is
 * therefore the richest.
 *
 * The filler is modelled by its effect on a table's harmonic content: a
 * table is the sequence of harmonics summed into it, in the order they were
 * added, and a call func(dst, len, lo, hi) appends lo, lo + 1, ..., hi. The
 * method returns the calls and copies it makes, in order.
 */
module MultiWave {

  import opened Basics

  /** A call func(table, len, lo, hi). */
  datatype Call = Call(table: nat, lo: nat, hi: nat)

  /** A mem::copy of table `src` into table `dst`. */
  datatype Copy = Copy(dst: nat, src: nat)

  /** The lowest harmonic of the i-th call: 1, then 2^(i-1) + 1. */
  function CallLo(i: nat): nat
  {
    if i == 0 then 1 else Pow2(i - 1) + 1
  }

  /** The highest harmonic of the i-th call: 2^i. */
  function CallHi(i: nat): nat
  {
    Pow2(i)
  }

  /**
   * The calls multiWave makes for `order` tables: call i adds
   * [CallLo(i), CallHi(i)] to table order - 1 - i. There is one call per
   * table, every call addresses a table inside the buffer, the tables are
   * visited from the last down to table 0, and every call adds at least one
   * harmonic.
   */
  function Schedule(order: nat): (s: seq<Call>)
    requires order >= 1
    ensures |s| == order
    ensures forall i :: 0 <= i < order ==> s[i].table < order && s[i].lo <= s[i].hi
    ensures forall i, j :: 0 <= i < j < order ==> s[j].table < s[i].table
    ensures s[order - 1].table == 0
  {
    seq(order, i requires 0 <= i < order => Call(order - 1 - i, CallLo(i), CallHi(i)))
  }

  /**
   * The copies multiWave makes: before call i, table order - i is copied
   * back into table order - 1 - i. Each copy goes from a table inside the
   * buffer into the table just before it, the copies walk down from the
   * last table to table 0, and so every table but the last is a
   * destination exactly once.
   */
  function Copies(order: nat): (c: seq<Copy>)
    requires order >= 1
    ensures |c| == order - 1
    ensures forall i :: 0 <= i < order - 1 ==> c[i].src < order && c[i].dst + 1 == c[i].src
    ensures forall i, j :: 0 <= i < j < order - 1 ==> c[j].dst < c[i].dst
    ensures order >= 2 ==> c[0].src == order - 1 && c[order - 2].dst == 0
  {
    seq(order - 1, i requires 0 <= i < order - 1 => Copy(order - 2 - i, order - 1 - i))
  }

  /**
   * The ranges listed in the comment above multiWave: (1, 1) on the last
   * table, then each call on the table before the previous one, starting
   * just above the previous call's highest harmonic and ending at twice it.
   * With one table there is no copy.
   */
  lemma ScheduleRecurrence(order: nat)
    requires order >= 1
    ensures Schedule(order)[0] == Call(order - 1, 1, 1)
    ensures forall i :: 0 <= i < order - 1 ==>
              Schedule(order)[i + 1] ==
              Call(Schedule(order)[i].table - 1, Schedule(order)[i].hi + 1, 2 * Schedule(order)[i].hi)
    ensures order == 1 ==> Copies(order) == []
  {
  }

  /** The harmonics that calls 0..i add together. */
  function Accumulated(i: nat): seq<nat>
  {
    if i == 0 then Range(CallLo(0), CallHi(0)) else Accumulated(i - 1) + Range(CallLo(i), CallHi(i))
  }

  /** After calls 0..i, a table has had every harmonic 1..2^i added exactly once. */
  lemma {:induction false} AccumulatedIsPrefix(i: nat)
    ensures Accumulated(i) == Range(1, Pow2(i))
  {
    if i > 0 {
      AccumulatedIsPrefix(i - 1);
      RangeSplit(1, Pow2(i - 1), Pow2(i));
    }
  }

  /** One more call extends the schedule by the call on the next table down. */
  lemma ScheduleStep(order: nat, o: nat)
    requires o + 1 < order
    ensures Schedule(order)[..o + 2] == Schedule(order)[..o + 1] + [Call(order - 2 - o, CallLo(o + 1), CallHi(o + 1))]
  {
  }

  /** One more copy extends the copies by table order - 1 - o into the table below it. */
  lemma CopiesStep(order: nat, o: nat)
    requires o + 1 < order
    ensures Copies(order)[..o + 1] == Copies(order)[..o] + [Copy(order - 2 - o, order - 1 - o)]
  {
  }

  /** Adding the next call's range to a copy of a table holding 1..2^o gives 1..2^(o + 1). */
  lemma ContentStep(base: seq<nat>, o: nat)
    ensures (base + Range(1, Pow2(o))) + Range(Pow2(o) + 1, Pow2(o + 1)) == base + Range(1, Pow2(o + 1))
  {
    RangeSplit(1, Pow2(o), Pow2(o + 1));
  }

  /**
   * tbl::multiWave over a stack of `order` = stack.Length tables. Table t
   * ends up with the last table's initial content plus every harmonic
   * 1..2^(order - 1 - t) once, so table order - 1 holds the fundamental
   * alone and table 0 the most harmonics.
   */
  method MultiWave(stack: array<seq<nat>>) returns (calls: seq<Call>, copies: seq<Copy>)
    requires stack.Length >= 1
    modifies stack
    ensures calls == Schedule(stack.Length)
    ensures copies == Copies(stack.Length)
    ensures forall t :: 0 <= t < stack.Length ==>
              stack[t] == old(stack[stack.Length - 1]) + Range(1, Pow2(stack.Length - 1 - t))
  {
    var order := stack.Length;
    ghost var base := stack[order - 1];
    var dst := order - 1;
    stack[dst] := stack[dst] + Range(1, 1);
    calls := [Call(dst, 1, 1)];
    copies := [];
    var hrmLo := 2;
    var hrmHi := 2;
    var o := 0;
    while o < order - 1
      invariant 0 <= o <= order - 1
      invariant dst == order - 1 - o
      invariant hrmLo == CallLo(o + 1) && hrmHi == CallHi(o + 1)
      invariant calls == Schedule(order)[..o + 1]
      invariant copies == Copies(order)[..o]
      invariant forall t :: dst <= t < order ==> stack[t] == base + Range(1, Pow2(order - 1 - t))
      invariant forall t :: 0 <= t < dst ==> stack[t] == old(stack[t])
    {
      var prev := dst;
      dst := dst - 1;
      stack[dst] := stack[prev];
      copies := copies + [Copy(dst, prev)];
      ContentStep(base, o);
      stack[dst] := stack[dst] + Range(hrmLo, hrmHi);
      ScheduleStep(order, o);
      CopiesStep(order, o);
      calls := calls + [Call(dst, hrmLo, hrmHi)];
      hrmLo := hrmHi + 1;
      hrmHi := hrmHi * 2;
      o := o + 1;
    }
  }
}
