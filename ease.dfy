/** `State::easeTime`: absolute time folded into a triangle wave over one
    period, then shaped by an easing curve and scaled.

    The easing curves and the floating-point scaling are not part of this
    model: a caller supplies `curve`, the integer the firmware computes from
    the folded time `ts` (in the source, `round(f(ts / (period - 1)) * mult)`). */
module Ease {
  import opened Types

  /** Largest period for which `period * 2` does not wrap around in 32 bits. */
  const MaxPeriod: nat := 0x7FFF_FFFF

  /** The only period for which `period * 2` wraps to 0, which `%` would
      divide by. */
  const ZeroDivisorPeriod: nat := 0x8000_0000

  /** The integer part of `easeTime`: `time` modulo two periods, reflected
      on the way down, so the result rises from 0 to `period` and falls back.
      `period * 2` is computed in 32 bits, as in the source. */
  function WrappedTime(period: uint32, time: nat): (ts: nat)
    requires 0 < period && period != ZeroDivisorPeriod
    ensures ts <= period
  {
    var ts := time % DoubledPeriod(period);
    if ts >= period then 2 * period - ts else ts
  }

  /** `period * 2` on a `uint32_t`: it is 0, so `time % (period * 2)`
      divides by zero, for the zero period the guard catches and for
      `ZeroDivisorPeriod`, which passes the guard. */
  function DoubledPeriod(period: uint32): (d: nat)
    ensures d < 0x1_0000_0000
    ensures d == 0 <==> period == 0 || period == ZeroDivisorPeriod
    ensures period <= MaxPeriod ==> d == 2 * period
  {
    var d := (2 * period) % 0x1_0000_0000;
    assert d == if period <= MaxPeriod then 2 * period else 2 * period - 0x1_0000_0000 by {
      if period <= MaxPeriod {
        ModOfMultiplePlus(0, 0x1_0000_0000, 2 * period);
      } else {
        ModOfMultiplePlus(1, 0x1_0000_0000, 2 * period - 0x1_0000_0000);
      }
    }
    d
  }

  /** The fold as evidently intended: `period * 2` computed without
      wrapping, so every positive period has a non-zero divisor. */
  function WrappedTimeWide(period: nat, time: nat): (ts: nat)
    requires 0 < period
    ensures ts <= period
  {
    var ts := time % (2 * period);
    if ts >= period then 2 * period - ts else ts
  }

  /** Wherever `period * 2` fits in 32 bits the source computes the
      intended fold. */
  lemma WrappedTimeWideAgrees(period: uint32, time: nat)
    requires 0 < period <= MaxPeriod
    ensures WrappedTime(period, time) == WrappedTimeWide(period, time)
  {
  }

  /** Past `MaxPeriod` the doubled period wraps below the period itself, so
      the time never folds back: the wave is a plain sawtooth. */
  lemma WrappedTimeLongPeriod(period: uint32, time: nat)
    requires MaxPeriod < period && period != ZeroDivisorPeriod
    ensures WrappedTime(period, time) == time % (2 * period - 0x1_0000_0000)
    ensures WrappedTime(period, time) < period
  {
  }

  /** `easeTime`: 0 for a zero period, the curve at the folded time otherwise. */
  function EaseTime(period: uint32, time: nat, curve: nat -> int): int
    requires period != ZeroDivisorPeriod
  {
    if period == 0 then 0 else curve(WrappedTime(period, time))
  }

  /** On the rising half the folded time is the time itself. */
  lemma WrappedTimeRising(period: uint32, time: nat)
    requires 0 < period <= MaxPeriod && time <= period
    ensures WrappedTime(period, time) == time
  {
    ModOfMultiplePlus(0, 0x1_0000_0000, 2 * period);
    ModOfMultiplePlus(0, 2 * period, time);
  }

  /** The folded time repeats every two periods. */
  lemma WrappedTimePeriodic(period: uint32, time: nat)
    requires 0 < period <= MaxPeriod
    ensures WrappedTime(period, time + 2 * period) == WrappedTime(period, time)
  {
    WrappedTimeWideAgrees(period, time);
    WrappedTimeWideAgrees(period, time + 2 * period);
    WrappedTimeWidePeriodic(period, time);
  }

  /** The folded time is symmetric about the middle of each double period. */
  lemma WrappedTimeMirror(period: uint32, time: nat)
    requires 0 < period <= MaxPeriod && time <= 2 * period
    ensures WrappedTime(period, 2 * period - time) == WrappedTime(period, time)
  {
    WrappedTimeWideAgrees(period, time);
    WrappedTimeWideAgrees(period, 2 * period - time);
    WrappedTimeWideMirror(period, time);
  }

  /** The intended fold repeats every two periods, for every positive
      period, `ZeroDivisorPeriod` and the periods past `MaxPeriod` included. */
  lemma WrappedTimeWidePeriodic(period: nat, time: nat)
    requires 0 < period
    ensures WrappedTimeWide(period, time + 2 * period) == WrappedTimeWide(period, time)
  {
    var q := time / (2 * period);
    var r := time % (2 * period);
    assert time + 2 * period == (q + 1) * (2 * period) + r;
    ModOfMultiplePlus(q + 1, 2 * period, r);
  }

  /** The intended fold is symmetric about the middle of each double
      period, for every positive period. */
  lemma WrappedTimeWideMirror(period: nat, time: nat)
    requires 0 < period && time <= 2 * period
    ensures WrappedTimeWide(period, 2 * period - time) == WrappedTimeWide(period, time)
  {
    var d := 2 * period;
    if time == 0 || time == d {
      ModOfMultiplePlus(1, d, 0);
      ModOfMultiplePlus(0, d, 0);
    } else {
      ModOfMultiplePlus(0, d, time);
      ModOfMultiplePlus(0, d, d - time);
    }
  }

  /** `easeTime` repeats every two periods, whatever the curve. */
  lemma EaseTimePeriodic(period: uint32, time: nat, curve: nat -> int)
    requires period <= MaxPeriod
    ensures EaseTime(period, time + 2 * period, curve) == EaseTime(period, time, curve)
  {
    if period > 0 {
      WrappedTimePeriodic(period, time);
    }
  }

  /** `easeTime` is a palindrome over each double period, whatever the curve. */
  lemma EaseTimeMirror(period: uint32, time: nat, curve: nat -> int)
    requires period <= MaxPeriod && time <= 2 * period
    ensures EaseTime(period, 2 * period - time, curve) == EaseTime(period, time, curve)
  {
    if period > 0 {
      WrappedTimeMirror(period, time);
    }
  }

  /** The curve takes values in [lo, hi] over the whole period. */
  predicate CurveBetween(curve: nat -> int, period: nat, lo: int, hi: int) {
    forall ts :: 0 <= ts <= period ==> lo <= curve(ts) <= hi
  }

  /** `easeTime` stays within any bounds that contain 0 and every value the
      curve takes on [0, period]. */
  lemma EaseTimeWithin(period: uint32, time: nat, curve: nat -> int, lo: int, hi: int)
    requires period != ZeroDivisorPeriod
    requires lo <= 0 <= hi
    requires CurveBetween(curve, period, lo, hi)
    ensures lo <= EaseTime(period, time, curve) <= hi
  {
    if period > 0 {
      var ts := WrappedTime(period, time);
      assert lo <= curve(ts) <= hi;
    }
  }

  /** C's `round` on a real: halves go away from zero. */
  function Round(x: real): (n: int)
    ensures x - 0.5 <= n as real <= x + 0.5
  {
    if x >= 0.0 then (x + 0.5).Floor else -((-x + 0.5).Floor)
  }

  /** Rounding a non-negative number gives a non-negative integer. */
  lemma RoundNonNegative(x: real)
    requires x >= 0.0
    ensures Round(x) >= 0
  {
  }

  /** The product of two non-negative numbers is non-negative. */
  lemma MulNonNegative(a: real, b: real)
    requires a >= 0.0 && b >= 0.0
    ensures a * b >= 0.0
  {
  }

  /** The normalised time as the source computes it: `ts / (period - 1)`.
      It is undefined for a period of 1. */
  function NormalizedAsWritten(period: nat, ts: nat): real
    requires period >= 2
  {
    ts as real / (period - 1) as real
  }

  /** At the peak of the wave, `ts == period`, the normalised time the source
      computes is above 1, so a curve is evaluated outside [0, 1]. */
  lemma NormalizedAsWrittenOvershoots(period: uint32)
    requires 2 <= period <= MaxPeriod
    ensures WrappedTime(period, period) == period
    ensures NormalizedAsWritten(period, WrappedTime(period, period)) > 1.0
  {
    WrappedTimeRising(period, period);
    QuotientAboveOne(period as real, (period - 1) as real);
  }

  /** Dividing by a smaller positive number gives more than 1. */
  lemma QuotientAboveOne(a: real, b: real)
    requires 0.0 < b < a
    ensures a / b > 1.0
  {
    var q := a / b;
    assert q * b == a;
  }

  /** The normalised time with the evident intent: `ts / period`, in [0, 1]
      for every folded time and defined for every positive period. */
  function Normalized(period: nat, ts: nat): (t: real)
    requires 0 < period && ts <= period
    ensures 0.0 <= t <= 1.0
    ensures ts == 0 ==> t == 0.0
    ensures ts == period ==> t == 1.0
  {
    ts as real / period as real
  }

  /** The integer `easeTime` produces from the folded time `ts` for an
      easing curve `f` and a multiplier, using the corrected normalisation. */
  function CurveAt(f: real -> real, period: nat, mult: int, ts: nat): int {
    if 0 < period && ts <= period then Round(f(Normalized(period, ts)) * mult as real) else 0
  }

  /** The same with the source's normalisation; 0 where it would divide by zero. */
  function CurveAsWrittenAt(f: real -> real, period: nat, mult: int, ts: nat): int {
    if period >= 2 then Round(f(NormalizedAsWritten(period, ts)) * mult as real) else 0
  }

  /** `CurveAt` as the curve argument of `EaseTime`. */
  function Curve(f: real -> real, period: nat, mult: int): nat -> int {
    (ts: nat) => CurveAt(f, period, mult, ts)
  }

  /** `CurveAsWrittenAt` as the curve argument of `EaseTime`. */
  function CurveAsWritten(f: real -> real, period: nat, mult: int): nat -> int {
    (ts: nat) => CurveAsWrittenAt(f, period, mult, ts)
  }

  /** An easing curve that maps [0, 1] into [0, 1]. */
  ghost predicate UnitCurve(f: real -> real) {
    forall t :: 0.0 <= t <= 1.0 ==> 0.0 <= f(t) <= 1.0
  }

  /** Scaling a fraction in [0, 1] by `m` stays in [0, m]. */
  lemma ScaleWithin(y: real, m: nat)
    requires 0.0 <= y <= 1.0
    ensures 0.0 <= y * m as real <= m as real
  {
    assert y * m as real <= 1.0 * m as real;
  }

  /** Scaling a fraction in [0, 1] by `m` and rounding gives an integer in
      [0, m]. */
  lemma RoundWithin(y: real, m: nat)
    requires 0.0 <= y <= 1.0
    ensures 0 <= Round(y * m as real) <= m
  {
    ScaleWithin(y, m);
    var n := Round(y * m as real);
    assert -0.5 <= n as real <= m as real + 0.5;
  }

  /** With the corrected normalisation, an easing curve that maps [0, 1] into
      [0, 1] yields values in [0, mult] over the whole period. */
  lemma CurveWithin(f: real -> real, period: nat, mult: nat, ts: nat)
    requires UnitCurve(f)
    requires ts <= period
    ensures 0 <= CurveAt(f, period, mult, ts) <= mult
  {
    if 0 < period {
      var t := Normalized(period, ts);
      assert 0.0 <= f(t) <= 1.0;
      RoundWithin(f(t), mult);
    }
  }

  /** With the source's normalisation the linear curve, which maps [0, 1]
      onto itself, yields 30 at the peak of a period of 2 with a multiplier
      of 15, past the last pixel of a 16-LED strip; the corrected
      normalisation yields 15, the last pixel. */
  lemma CurveAsWrittenOvershoots()
    ensures CurveAsWrittenAt(t => t, 2, 15, WrappedTime(2, 2)) == 30
    ensures CurveAt(t => t, 2, 15, WrappedTime(2, 2)) == 15
  {
    assert WrappedTime(2, 2) == 2 by {
      ModOfMultiplePlus(0, 4, 2);
    }
    assert NormalizedAsWritten(2, 2) == 2.0;
    assert Normalized(2, 2) == 1.0;
    assert (30.0 + 0.5).Floor == 30;
    assert (15.0 + 0.5).Floor == 15;
  }
}
