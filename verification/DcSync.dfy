/** Tracking of the distributed-clock reference time by a servo that corrects a sixteenth of the drift. */
module DcSync {

  const U64: int := 0x1_0000_0000_0000_0000
  const I64: int := 0x8000_0000_0000_0000

  /** The signed reading of a 64-bit difference. */
  function WrapI64(x: int): (r: int)
    ensures -I64 <= r < I64
  {
    var u := x % U64;
    if u < I64 then u else u - U64
  }

  /** Reading a difference as signed 64-bit is exact for the differences it can hold, and only for those. */
  lemma WrapExactIff(x: int)
    ensures WrapI64(x) == x <==> -I64 <= x < I64
  {
    if -I64 <= x < 0 {
      assert (x + U64) % U64 == x + U64 && x % U64 == (x + U64) % U64;
    }
  }

  function Clamped(x: int): (r: int)
    ensures 0 <= r < U64
  {
    if x < 0 then 0 else if x >= U64 then U64 - 1 else x
  }

  function ExpectedTime(reference: int, elapsed: int, correction: int): int
  {
    Clamped(reference + elapsed + correction)
  }

  function DriftOf(reference: int, elapsed: int, correction: int, measured: int): int
  {
    WrapI64(measured - ExpectedTime(reference, elapsed, correction))
  }

  /** An arithmetic shift right by 4 divides by 16, rounding down. */
  function Shifted(d: int): int { d / 16 }

  /** The time expected is the representable one nearest to reference, elapsed time and correction together. */
  lemma ExpectedIsNearest(reference: int, elapsed: int, correction: int, y: int)
    requires 0 <= y < U64
    ensures var x, e := reference + elapsed + correction, ExpectedTime(reference, elapsed, correction);
            0 <= e < U64 && (if e < x then x - e else e - x) <= (if y < x then x - y else y - x)
  {}

  /** For all values the drift is the difference of measured and expected time, up to multiples of 2^64. */
  lemma DriftIsDifference(reference: int, elapsed: int, correction: int, measured: int)
    ensures var d := DriftOf(reference, elapsed, correction, measured);
            -I64 <= d < I64 && (measured - ExpectedTime(reference, elapsed, correction) - d) % U64 == 0
  {
    WrapIsCongruent(measured - ExpectedTime(reference, elapsed, correction));
  }

  lemma WrapIsCongruent(x: int)
    ensures (x - WrapI64(x)) % U64 == 0
  {
    var q := x / U64;
    assert x == U64 * q + x % U64;
    if x % U64 < I64 { assert x - WrapI64(x) == U64 * q; } else { assert x - WrapI64(x) == U64 * (q + 1); }
  }

  class DcSystemTime {
    var dcTimeAtReference: int
    var driftCorrection: int
    var lastDcTime: int
    var cycleCount: nat

    constructor ()
      ensures dcTimeAtReference == 0 && driftCorrection == 0 && cycleCount == 0
    {
      dcTimeAtReference, driftCorrection, lastDcTime, cycleCount := 0, 0, 0, 0;
    }

    method Initialize(dcTime: int)
      modifies this
      ensures dcTimeAtReference == dcTime == lastDcTime && driftCorrection == 0 && cycleCount == 0
    {
      dcTimeAtReference, lastDcTime, driftCorrection, cycleCount := dcTime, dcTime, 0, 0;
    }

    function ExpectedDcTime(elapsed: int): int
      reads this
    {
      var expected := dcTimeAtReference + elapsed + driftCorrection;
      if expected < 0 then 0 else if expected > U64 - 1 then U64 - 1 else expected
    }

    method Update(measured: int, elapsed: int) returns (drift: int)
      modifies this
      ensures drift == DriftOf(dcTimeAtReference, elapsed, old(driftCorrection), measured)
      ensures driftCorrection == Corrected(dcTimeAtReference, old(driftCorrection), Sample(elapsed, measured))
      ensures dcTimeAtReference == old(dcTimeAtReference) && lastDcTime == measured && cycleCount == old(cycleCount) + 1
    {
      var expected := ExpectedDcTime(elapsed);
      drift := WrapI64(measured - expected);
      driftCorrection := WrapI64(driftCorrection + Shifted(drift));
      lastDcTime := measured;
      cycleCount := cycleCount + 1;
    }

    /** Feeds a series of measurements. */
    method Track(samples: seq<Sample>)
      modifies this
      ensures driftCorrection == CorrectionAfter(dcTimeAtReference, old(driftCorrection), samples)
      ensures dcTimeAtReference == old(dcTimeAtReference)
    {
      for i := 0 to |samples|
        invariant dcTimeAtReference == old(dcTimeAtReference)
        invariant driftCorrection == CorrectionAfter(dcTimeAtReference, old(driftCorrection), samples[..i])
      {
        var _ := Update(samples[i].measured, samples[i].elapsed);
        assert samples[..i + 1][..i] == samples[..i];
      }
      assert samples[..|samples|] == samples;
    }
  }

  // ---- Runs of the servo -----------------------------------------------------------

  /** Local time elapsed since the reference, and the reference clock's time measured then. */
  datatype Sample = Sample(elapsed: int, measured: int)

  /** The correction after one more measurement. */
  function Corrected(reference: int, correction: int, s: Sample): int
  {
    WrapI64(correction + Shifted(DriftOf(reference, s.elapsed, correction, s.measured)))
  }

  function CorrectionAfter(reference: int, correction: int, samples: seq<Sample>): int
  {
    if samples == [] then correction
    else Corrected(reference, CorrectionAfter(reference, correction, samples[..|samples| - 1]), samples[|samples| - 1])
  }

  /** The drift returned for measurement `i`. */
  function DriftAt(reference: int, correction: int, samples: seq<Sample>, i: nat): int
    requires i < |samples|
  {
    DriftOf(reference, samples[i].elapsed, CorrectionAfter(reference, correction, samples[..i]), samples[i].measured)
  }

  /** No clamping and no overflow at measurement `i`. */
  predicate InRange(reference: int, correction: int, s: Sample)
  {
    var expected := reference + s.elapsed + correction;
    && 0 <= expected < U64 && -I64 <= s.measured - expected < I64
    && -I64 <= correction + Shifted(s.measured - expected) < I64
  }

  /** The drift after one update during which the measured clock gains `r`. */
  function NextDrift(d: int, r: int): int { d - Shifted(d) + r }

  function DriftAfter(d: int, r: int, n: nat): int
  {
    if n == 0 then d else NextDrift(DriftAfter(d, r, n - 1), r)
  }

  lemma ExactDrift(reference: int, correction: int, s: Sample)
    requires InRange(reference, correction, s)
    ensures DriftOf(reference, s.elapsed, correction, s.measured) == s.measured - reference - s.elapsed - correction
    ensures Corrected(reference, correction, s) == correction + Shifted(s.measured - reference - s.elapsed - correction)
  {
    var d := s.measured - (reference + s.elapsed + correction);
    WrapExactIff(d);
    WrapExactIff(correction + Shifted(d));
  }

  // ---- Convergence -------------------------------------------------------------------

  /** The nearest drift within the band from 16 r to 16 r + 15. */
  function Settled(d: int, r: int): int
  {
    if d < 16 * r then 16 * r else if d > 16 * r + 15 then 16 * r + 15 else d
  }

  function Distance(d: int, r: int): nat
  {
    if d < Settled(d, r) then Settled(d, r) - d else d - Settled(d, r)
  }

  /** One update: a drift in the band stays; a drift outside moves towards the band without overshooting it, by at
      least one and by at least a sixteenth of its distance. */
  lemma OneUpdate(d: int, r: int)
    ensures var d' := NextDrift(d, r);
            && Settled(d', r) == Settled(d, r)
            && (d == Settled(d, r) ==> d' == d)
            && (d < Settled(d, r) ==> d < d' <= Settled(d, r))
            && (d > Settled(d, r) ==> Settled(d, r) <= d' < d)
            && 16 * Distance(d', r) <= 15 * Distance(d, r)
  {
    var e := d - 16 * r;
    assert d / 16 == e / 16 + r;
  }

  function Power(b: nat, n: nat): nat
  {
    if n == 0 then 1 else b * Power(b, n - 1)
  }

  /** After `n` updates the drift is on the same side, not beyond its final value, and its distance from it has
      shrunk at least by the factor 15/16 per update. */
  lemma {:induction false} GeometricApproach(d: int, r: int, n: nat)
    ensures var d' := DriftAfter(d, r, n);
            && Settled(d', r) == Settled(d, r)
            && (d <= Settled(d, r) ==> d <= d' <= Settled(d, r))
            && (d >= Settled(d, r) ==> Settled(d, r) <= d' <= d)
            && Power(16, n) * Distance(d', r) <= Power(15, n) * Distance(d, r)
  {
    if n > 0 {
      GeometricApproach(d, r, n - 1);
      var before := DriftAfter(d, r, n - 1);
      OneUpdate(before, r);
      var x, y, z := Distance(NextDrift(before, r), r), Distance(before, r), Distance(d, r);
      ScaledStep(Power(16, n - 1), Power(15, n - 1), x, y, z);
    }
  }

  lemma ScaledStep(p: nat, q: nat, x: nat, y: nat, z: nat)
    requires 16 * x <= 15 * y && p * y <= q * z
    ensures (16 * p) * x <= (15 * q) * z
  {
    calc {
      (16 * p) * x;
    ==
      p * (16 * x);
    <= { Monotone(p, 16 * x, 15 * y); }
      p * (15 * y);
    ==
      15 * (p * y);
    <=
      15 * (q * z);
    ==
      (15 * q) * z;
    }
  }

  lemma Monotone(p: nat, a: nat, b: nat)
    requires a <= b
    ensures p * a <= p * b
  {}

  /** The servo settles in finitely many updates, at the nearest drift of the band, and stays there: no later
      than after as many updates as the distance. */
  lemma {:induction false} Converges(d: int, r: int, n: nat)
    requires n >= Distance(d, r)
    ensures DriftAfter(d, r, n) == Settled(d, r)
  {
    Approaches(d, r, n);
  }

  lemma {:induction false} Approaches(d: int, r: int, n: nat)
    ensures var d' := DriftAfter(d, r, n);
            Settled(d', r) == Settled(d, r) && Distance(d', r) <= if Distance(d, r) > n then Distance(d, r) - n else 0
  {
    if n > 0 {
      Approaches(d, r, n - 1);
      OneUpdate(DriftAfter(d, r, n - 1), r);
    }
  }

  // ---- The servo, from its first drift and the measurements alone -------------------------

  function FirstDrift(reference: int, correction: int, s: Sample): int
  {
    s.measured - (reference + s.elapsed + correction)
  }

  /** The measured clock gains `r` nanoseconds per update over the local clock. */
  predicate Gains(samples: seq<Sample>, r: int)
  {
    forall i :: 0 <= i < |samples| - 1 ==>
      samples[i + 1].measured - samples[i + 1].elapsed == samples[i].measured - samples[i].elapsed + r
  }

  /** No drift from `d` to its final value clamps or overflows at measurement `s`. */
  predicate Bounded(reference: int, d: int, r: int, s: Sample)
  {
    var end := Settled(d, r);
    var low, high := if d < end then d else end, if d < end then end else d;
    && -I64 <= low && high < I64 && high <= s.measured < U64 + low
    && high - I64 <= s.measured - s.elapsed + r - reference < low + I64
  }

  predicate Between(x: int, d: int, end: int) { d <= x <= end || end <= x <= d }

  lemma DriftBetween(d: int, r: int, n: nat)
    ensures Between(DriftAfter(d, r, n), d, Settled(d, r))
  {
    GeometricApproach(d, r, n);
  }

  lemma BoundedIsInRange(reference: int, correction: int, s: Sample, d: int, r: int)
    requires Bounded(reference, d, r, s)
    requires Between(FirstDrift(reference, correction, s), d, Settled(d, r))
    requires Between(NextDrift(FirstDrift(reference, correction, s), r), d, Settled(d, r))
    ensures InRange(reference, correction, s)
  {
    hide Settled;
    var x := FirstDrift(reference, correction, s);
    assert correction + Shifted(x) == s.measured - s.elapsed + r - reference - NextDrift(x, r);
  }

  lemma DriftOfNext(reference: int, correction: int, s: Sample, next: Sample, r: int)
    requires InRange(reference, correction, s) && next.measured - next.elapsed == s.measured - s.elapsed + r
    ensures FirstDrift(reference, Corrected(reference, correction, s), next) == NextDrift(FirstDrift(reference, correction, s), r)
  {
    ExactDrift(reference, correction, s);
    hide Shifted, WrapI64, InRange;
  }

  /** Then nothing is ever clamped and nothing overflows, and the drifts follow the recurrence of the servo. */
  lemma {:induction false} StaysInRange(reference: int, correction: int, samples: seq<Sample>, r: int, n: nat)
    requires n < |samples| && Gains(samples, r)
    requires forall i :: 0 <= i < |samples| ==> Bounded(reference, FirstDrift(reference, correction, samples[0]), r, samples[i])
    ensures var c, d := CorrectionAfter(reference, correction, samples[..n]), FirstDrift(reference, correction, samples[0]);
            InRange(reference, c, samples[n]) && FirstDrift(reference, c, samples[n]) == DriftAfter(d, r, n)
  {
    hide Bounded, Between, Settled, InRange, NextDrift, Corrected, FirstDrift;
    var d, c := FirstDrift(reference, correction, samples[0]), CorrectionAfter(reference, correction, samples[..n]);
    if n > 0 {
      StaysInRange(reference, correction, samples, r, n - 1);
      assert samples[..n][..n - 1] == samples[..n - 1];
      assert samples[n - 1 + 1].measured - samples[n - 1 + 1].elapsed == samples[n - 1].measured - samples[n - 1].elapsed + r;
      DriftOfNext(reference, CorrectionAfter(reference, correction, samples[..n - 1]), samples[n - 1], samples[n], r);
    }
    assert FirstDrift(reference, c, samples[n]) == DriftAfter(d, r, n);
    DriftBetween(d, r, n);
    DriftBetween(d, r, n + 1);
    assert Bounded(reference, d, r, samples[n]);
    BoundedIsInRange(reference, c, samples[n], d, r);
  }

  /** The drifts returned follow the recurrence of the servo. */
  lemma DriftsFollowRecurrence(reference: int, correction: int, samples: seq<Sample>, r: int, n: nat)
    requires n < |samples| && Gains(samples, r)
    requires forall i :: 0 <= i < |samples| ==> Bounded(reference, FirstDrift(reference, correction, samples[0]), r, samples[i])
    ensures DriftAt(reference, correction, samples, n) == DriftAfter(FirstDrift(reference, correction, samples[0]), r, n)
  {
    StaysInRange(reference, correction, samples, r, n);
    ExactDrift(reference, CorrectionAfter(reference, correction, samples[..n]), samples[n]);
  }

  /** If the first drift and the measurements are bounded, the reported drift settles at the nearest value of the band
      and stays; a reference clock without relative gain leaves at most 15 nanoseconds. */
  lemma ServoSettles(reference: int, correction: int, samples: seq<Sample>, r: int, n: nat)
    requires n < |samples| && Gains(samples, r)
    requires forall i :: 0 <= i < |samples| ==> Bounded(reference, FirstDrift(reference, correction, samples[0]), r, samples[i])
    requires n >= Distance(FirstDrift(reference, correction, samples[0]), r)
    ensures var d := DriftAt(reference, correction, samples, n);
            d == Settled(FirstDrift(reference, correction, samples[0]), r) && 16 * r <= d <= 16 * r + 15
  {
    DriftsFollowRecurrence(reference, correction, samples, r, n);
    Converges(FirstDrift(reference, correction, samples[0]), r, n);
  }
}
