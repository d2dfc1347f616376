/** Cycle-time statistics over a ring of the latest durations. */
module Metrics {
  import opened Wrappers
  import opened Arithmetic
  import opened Rings

  const U64: nat := 0x1_0000_0000_0000_0000

  function Sum(s: seq<nat>): nat
  {
    if s == [] then 0 else Sum(s[..|s| - 1]) + s[|s| - 1]
  }

  /** Addition of unsigned 64-bit numbers that wraps around. */
  function WrappingAdd(a: nat, b: nat): nat { (a + b) % U64 }

  function WrappedSum(s: seq<nat>): nat { Sum(s) % U64 }

  function Quotient(a: nat, b: nat): nat
    requires b > 0
  {
    a / b
  }

  /** One if `x` is at most (if `strict`, below) `v`. */
  function Below(x: nat, v: nat, strict: bool): nat
  {
    if x < v || (!strict && x == v) then 1 else 0
  }

  /** How many elements are at most (if `strict`, below) `v`. */
  function CountBelow(s: seq<nat>, v: nat, strict: bool): nat
  {
    if s == [] then 0 else CountBelow(s[..|s| - 1], v, strict) + Below(s[|s| - 1], v, strict)
  }

  /** How many elements exceed `v`. */
  function CountAbove(s: seq<nat>, v: nat): nat
  {
    if s == [] then 0 else CountAbove(s[..|s| - 1], v) + if s[|s| - 1] > v then 1 else 0
  }

  predicate IsSorted(s: seq<nat>)
  {
    forall i, j :: 0 <= i < j < |s| ==> s[i] <= s[j]
  }

  function Insert(x: nat, s: seq<nat>): (r: seq<nat>)
    requires IsSorted(s)
    ensures IsSorted(r) && multiset(r) == multiset(s) + multiset{x}
  {
    if s == [] then [x]
    else
      var n := |s| - 1;
      assert s == s[..n] + [s[n]];
      if s[n] <= x then s + [x]
      else
        var r := Insert(x, s[..n]);
        InsertedAtMost(x, s[..n], r, s[n]);
        r + [s[n]]
  }

  lemma InsertedAtMost(x: nat, s: seq<nat>, r: seq<nat>, bound: nat)
    requires multiset(r) == multiset(s) + multiset{x} && x <= bound && forall i :: 0 <= i < |s| ==> s[i] <= bound
    ensures forall i :: 0 <= i < |r| ==> r[i] <= bound
  {
    forall i | 0 <= i < |r|
      ensures r[i] <= bound
    {
      assert r[i] in multiset(r);
    }
  }

  lemma SortedPrefix(s: seq<nat>, n: nat)
    requires IsSorted(s) && n <= |s|
    ensures IsSorted(s[..n])
  {}

  /** The samples in increasing order. */
  function Sorted(s: seq<nat>): (r: seq<nat>)
    ensures IsSorted(r) && multiset(r) == multiset(s) && |r| == |s|
  {
    if s == [] then []
    else
      assert s == s[..|s| - 1] + [s[|s| - 1]];
      var r := Insert(s[|s| - 1], Sorted(s[..|s| - 1]));
      assert |multiset(r)| == |r| && |multiset(s)| == |s|;
      r
  }

  /** Rounding half up, which on non-negative numbers is rounding half away from zero. */
  function Round(x: real): (r: int)
    requires x >= 0.0
    ensures r >= 0 && r as real - 0.5 <= x < r as real + 0.5
  {
    (x + 0.5).Floor
  }

  lemma RoundMonotone(x: real, y: real)
    requires 0.0 <= x <= y
    ensures Round(x) <= Round(y)
  {}

  /** Position of a percentile among `n` sorted samples. */
  function Rank(p: real, n: nat): (k: nat)
    requires 0.0 <= p <= 100.0 && n > 0
    ensures k < n && k as real - 0.5 <= p / 100.0 * (n - 1) as real < k as real + 0.5
  {
    var x := p / 100.0 * (n - 1) as real;
    assert 0.0 <= x <= (n - 1) as real by { Scaled(p / 100.0, (n - 1) as real); }
    Min(Round(x), n - 1)
  }

  lemma Scaled(f: real, m: real)
    requires 0.0 <= f <= 1.0 && m >= 0.0
    ensures 0.0 <= f * m <= m
  {
    assert f * m <= 1.0 * m;
  }

  function PercentileOf(window: seq<nat>, p: real): nat
    requires 0.0 <= p <= 100.0 && window != []
  {
    Sorted(window)[Rank(p, |window|)]
  }

  // ---- Percentiles are order statistics ----------------------------------------------

  lemma CountPush(s: seq<nat>, x: nat, v: nat, strict: bool)
    ensures CountBelow(s + [x], v, strict) == CountBelow(s, v, strict) + Below(x, v, strict)
  {
    assert (s + [x])[..|s|] == s;
  }

  lemma CountPop(s: seq<nat>, v: nat, strict: bool)
    requires s != []
    ensures CountBelow(s, v, strict) == CountBelow(s[..|s| - 1], v, strict) + Below(s[|s| - 1], v, strict)
  {}

  lemma InsertCases(x: nat, s: seq<nat>)
    requires IsSorted(s)
    ensures s == [] ==> Insert(x, s) == [x]
    ensures s != [] && s[|s| - 1] <= x ==> Insert(x, s) == s + [x]
    ensures s != [] && s[|s| - 1] > x ==>
              IsSorted(s[..|s| - 1]) && Insert(x, s) == Insert(x, s[..|s| - 1]) + [s[|s| - 1]]
  {}

  lemma {:induction false} InsertCounts(x: nat, s: seq<nat>, v: nat, strict: bool)
    requires IsSorted(s)
    ensures CountBelow(Insert(x, s), v, strict) == CountBelow(s, v, strict) + Below(x, v, strict)
    decreases |s|
  {
    InsertCases(x, s);
    hide IsSorted, Insert, Below;
    if s == [] {
      CountPush([], x, v, strict);
      assert [] + [x] == [x];
    } else {
      var n := |s| - 1;
      hide CountBelow;
      if s[n] <= x {
        CountPush(s, x, v, strict);
      } else {
        InsertCounts(x, s[..n], v, strict);
        CountPush(Insert(x, s[..n]), s[n], v, strict);
        CountPop(s, v, strict);
      }
    }
  }

  /** Sorting keeps every count. */
  lemma {:induction false} SortedCounts(s: seq<nat>, v: nat, strict: bool)
    ensures CountBelow(Sorted(s), v, strict) == CountBelow(s, v, strict)
    decreases |s|
  {
    if s != [] {
      var n := |s| - 1;
      assert IsSorted(Sorted(s[..n])) && Sorted(s) == Insert(s[n], Sorted(s[..n]));
      hide IsSorted, Insert, Below, CountBelow, Sorted;
      SortedCounts(s[..n], v, strict);
      InsertCounts(s[n], Sorted(s[..n]), v, strict);
      CountPop(s, v, strict);
    }
  }

  lemma SameLength(a: seq<nat>, b: seq<nat>)
    requires multiset(a) == multiset(b)
    ensures |a| == |b|
  {
    assert |multiset(a)| == |a| && |multiset(b)| == |b|;
  }

  lemma WithoutLast(s: seq<nat>)
    requires s != []
    ensures multiset(s[..|s| - 1]) == multiset(s) - multiset{s[|s| - 1]}
  {
    assert s == s[..|s| - 1] + [s[|s| - 1]];
  }

  lemma {:induction false} CountAppend(a: seq<nat>, b: seq<nat>, v: nat, strict: bool)
    ensures CountBelow(a + b, v, strict) == CountBelow(a, v, strict) + CountBelow(b, v, strict)
    decreases |b|
  {
    if b == [] {
      assert a + b == a;
    } else {
      assert (a + b)[..|a + b| - 1] == a + b[..|b| - 1];
      CountAppend(a, b[..|b| - 1], v, strict);
    }
  }

  lemma {:induction false} CountInSorted(s: seq<nat>, k: nat)
    requires IsSorted(s) && k < |s|
    ensures CountBelow(s, s[k], true) <= k < CountBelow(s, s[k], false)
  {
    var v := s[k];
    var upTo, after, before, from := s[..k + 1], s[k + 1..], s[..k], s[k..];
    hide CountBelow;
    assert s == upTo + after && s == before + from;
    CountAppend(upTo, after, v, false);
    AllCounted(upTo, v);
    CountAppend(before, from, v, true);
    NoneCounted(from, v);
    CountAtMost(before, v);
  }

  lemma {:induction false} AllCounted(s: seq<nat>, v: nat)
    requires forall i :: 0 <= i < |s| ==> s[i] <= v
    ensures CountBelow(s, v, false) == |s|
  {
    if s != [] { AllCounted(s[..|s| - 1], v); }
  }

  lemma {:induction false} NoneCounted(s: seq<nat>, v: nat)
    requires forall i :: 0 <= i < |s| ==> v <= s[i]
    ensures CountBelow(s, v, true) == 0
  {
    if s != [] { NoneCounted(s[..|s| - 1], v); }
  }

  lemma {:induction false} CountAtMost(s: seq<nat>, v: nat)
    ensures CountBelow(s, v, true) <= |s|
  {
    if s != [] { CountAtMost(s[..|s| - 1], v); }
  }

  /** A percentile is a sample with at most Rank samples below it and more than Rank samples not above it. */
  lemma PercentileIsOrderStatistic(window: seq<nat>, p: real)
    requires 0.0 <= p <= 100.0 && window != []
    ensures var v, k := PercentileOf(window, p), Rank(p, |window|);
            v in window && CountBelow(window, v, true) <= k < CountBelow(window, v, false)
  {
    var s, k := Sorted(window), Rank(p, |window|);
    hide CountBelow, Rank;
    CountInSorted(s, k);
    SortedCounts(window, s[k], true);
    SortedCounts(window, s[k], false);
    assert s[k] in multiset(s);
  }

  lemma RanksAreMonotone(p: real, q: real, n: nat)
    requires 0.0 <= p <= q <= 100.0 && n > 0
    ensures Rank(p, n) <= Rank(q, n) && Rank(0.0, n) == 0 && Rank(100.0, n) == n - 1
  {
    var m := (n - 1) as real;
    Scaled(p / 100.0, m);
    Scaled((q - p) / 100.0, m);
    assert p / 100.0 * m + (q - p) / 100.0 * m == q / 100.0 * m;
    RoundMonotone(p / 100.0 * m, q / 100.0 * m);
    assert 0.0 / 100.0 * m == 0.0 && 100.0 / 100.0 * m == m;
  }

  lemma InOrder(s: seq<nat>, i: nat, j: nat)
    requires IsSorted(s) && i <= j < |s|
    ensures s[i] <= s[j]
  {}

  lemma SortedEnds(window: seq<nat>, x: nat)
    requires x in window
    ensures Sorted(window)[0] <= x <= Sorted(window)[|window| - 1]
  {
    assert x in multiset(Sorted(window));
  }

  /** Percentiles are monotone, from the least sample at 0 to the greatest at 100. */
  lemma PercentilesAreMonotone(window: seq<nat>, p: real, q: real)
    requires 0.0 <= p <= q <= 100.0 && window != []
    ensures PercentileOf(window, p) <= PercentileOf(window, q)
    ensures forall x :: x in window ==> PercentileOf(window, 0.0) <= x <= PercentileOf(window, 100.0)
  {
    RanksAreMonotone(p, q, |window|);
    InOrder(Sorted(window), Rank(p, |window|), Rank(q, |window|));
    hide Rank, Round, Sorted, IsSorted;
    forall x | x in window
      ensures Sorted(window)[0] <= x <= Sorted(window)[|window| - 1]
    {
      SortedEnds(window, x);
    }
  }

  lemma StatisticsExtend(log: seq<nat>, ns: nat, deadline: nat)
    ensures WrappedSum(log + [ns]) == WrappingAdd(WrappedSum(log), ns)
    ensures CountAbove(log + [ns], deadline) == CountAbove(log, deadline) + if ns > deadline then 1 else 0
  {
    assert (log + [ns])[..|log|] == log;
  }

  lemma QuotientIsRounded(a: nat, b: nat)
    requires b > 0
    ensures Quotient(a, b) * b <= a < (Quotient(a, b) + 1) * b
  {
    var q, r := a / b, a % b;
    assert a == q * b + r;
    assert (q + 1) * b == q * b + b;
  }

  /** The overruns counted are the positions of the durations above the deadline. */
  lemma {:induction false} OverrunsAreCounted(log: seq<nat>, deadline: nat)
    ensures CountAbove(log, deadline) == |set i | 0 <= i < |log| && log[i] > deadline|
  {
    if log != [] {
      var n := |log| - 1;
      OverrunsAreCounted(log[..n], deadline);
      var before := set i | 0 <= i < n && log[..n][i] > deadline;
      var all := set i | 0 <= i < |log| && log[i] > deadline;
      assert all == before + if log[n] > deadline then {n} else {};
    }
  }

  /** The least and the greatest element, or what stands for them before the first. */
  ghost predicate Extremes(log: seq<nat>, least: nat, greatest: nat)
  {
    if log == [] then least == U64 - 1 && greatest == 0
    else least in log && greatest in log && forall x <- log :: least <= x <= greatest
  }

  lemma ExtremesExtend(log: seq<nat>, least: nat, greatest: nat, ns: nat)
    requires Extremes(log, least, greatest) && ns < U64
    ensures Extremes(log + [ns], Min(least, ns), Max(greatest, ns))
  {
    assert (log + [ns])[|log|] == ns;
  }

  // ---- The collector -------------------------------------------------------------------

  class CycleMetrics {
    const samples: array<nat>
    const deadline: nat
    var writePos: nat
    var sampleCount: nat
    var totalCycles: nat
    var minNs: nat
    var maxNs: nat
    var sumNs: nat
    var overrunCount: nat

    /** All durations recorded since the last reset. */
    ghost var log: seq<nat>

    ghost predicate Window()
      reads this`writePos, this`sampleCount, this`log, samples
    {
      && samples.Length > 0 && Holds(samples[..], log) && writePos == |log| % samples.Length
      && sampleCount == Min(|log|, samples.Length)
    }

    /** The counters describe the durations `all`. */
    ghost predicate TotalsOf(all: seq<nat>)
      reads this`totalCycles, this`minNs, this`maxNs, this`sumNs, this`overrunCount
    {
      && totalCycles == |all| && sumNs == WrappedSum(all) && overrunCount == CountAbove(all, deadline)
      && Extremes(all, minNs, maxNs)
    }

    ghost predicate Valid()
      reads this, samples
    {
      Window() && TotalsOf(log)
    }

    constructor (histogramSize: nat, deadline: nat)
      ensures Valid() && fresh(samples) && log == [] && this.deadline == deadline
      ensures samples.Length == if histogramSize == 0 then 1 else histogramSize
    {
      samples := new nat[if histogramSize == 0 then 1 else histogramSize](_ => 0);
      this.deadline := deadline;
      writePos, sampleCount, totalCycles, minNs, maxNs, sumNs, overrunCount := 0, 0, 0, U64 - 1, 0, 0, 0;
      log := [];
    }

    /** The ring's part of recording a duration. */
    method StoreSample(ns: nat)
      requires Window()
      modifies this`writePos, this`sampleCount, this`log, samples
      ensures Window() && log == old(log) + [ns]
    {
      PushHolds(samples[..], log, ns);
      NextSlot(|log|, samples.Length);
      ghost var slots := samples[..][writePos := ns];
      samples[writePos] := ns;
      assert samples[..] == slots;
      writePos := (writePos + 1) % samples.Length;
      sampleCount := Min(sampleCount + 1, samples.Length);
      log := log + [ns];
    }

    method Record(ns: nat)
      requires Valid() && ns < U64
      modifies this, samples
      ensures Valid() && log == old(log) + [ns]
    {
      StoreSample(ns);
      CountTotals(ns, old(log));
    }

    /** The counters' part of recording a duration. */
    method CountTotals(ns: nat, ghost before: seq<nat>)
      requires Window() && TotalsOf(before) && log == before + [ns] && ns < U64
      modifies this`totalCycles, this`minNs, this`maxNs, this`sumNs, this`overrunCount
      ensures Window() && TotalsOf(log)
    {
      StatisticsExtend(before, ns, deadline);
      ExtremesExtend(before, minNs, maxNs, ns);
      hide CountAbove, Extremes, Window, WrappingAdd, WrappedSum, Min, Max, Sum;
      totalCycles := totalCycles + 1;
      minNs, maxNs := Min(minNs, ns), Max(maxNs, ns);
      sumNs := WrappingAdd(sumNs, ns);
      if ns > deadline {
        overrunCount := overrunCount + 1;
      }
    }

    /** The live samples are the latest durations, up to their order. */
    lemma WindowIsLatest()
      requires Valid()
      ensures multiset(samples[..sampleCount]) == multiset(Last(log, sampleCount))
    {
      var n, m := |log|, samples.Length;
      var slots := samples[..];
      if n <= m {
        assert slots[..n] == log by {
          forall k | 0 <= k < n ensures slots[k] == log[k] { Chronological(slots, log, k); Small(k, m); }
        }
        assert samples[..sampleCount] == slots[..n];
      } else {
        var r := n % m;
        assert Last(log, m) == slots[r..] + slots[..r] by {
          forall i | 0 <= i < m
            ensures Last(log, m)[i] == (slots[r..] + slots[..r])[i]
          {
            Chronological(slots, log, i);
            if r + i < m { Small(r + i, m); } else { ModUnique(r + i, m, 1, r + i - m); }
          }
        }
        assert slots == slots[..r] + slots[r..];
        assert samples[..sampleCount] == slots;
      }
    }

    lemma Small(k: nat, m: nat)
      requires k < m
      ensures k % m == k
    {
      ModUnique(k, m, 0, k);
    }

    /** None without samples or for a percentile out of range. */
    method Percentile(p: real) returns (r: Option<nat>)
      requires Valid()
      ensures r == if log == [] || p < 0.0 || p > 100.0 then None else Some(PercentileOf(Last(log, sampleCount), p))
    {
      if sampleCount == 0 || p < 0.0 || p > 100.0 { return None; }
      var sorted := Sorted(samples[..sampleCount]);
      WindowIsLatest();
      SortedUnique(sorted, Sorted(Last(log, sampleCount)));
      r := Some(sorted[Rank(p, |sorted|)]);
    }

    method Mean() returns (r: Option<nat>)
      requires Valid()
      ensures Sum(log) < U64 ==> r == if log == [] then None else Some(Quotient(Sum(log), |log|))
      ensures Sum(log) < U64 && r.Some? ==> r.value * |log| <= Sum(log) < (r.value + 1) * |log|
    {
      assert Sum(log) < U64 ==> sumNs == Sum(log);
      hide Sum, WrappedSum, CountAbove, Extremes, Window, Quotient;
      if totalCycles > 0 { QuotientIsRounded(sumNs, totalCycles); }
      r := if totalCycles > 0 then Some(Quotient(sumNs, totalCycles)) else None;
    }

    method Reset()
      requires Valid()
      modifies this, samples
      ensures Valid() && log == []
    {
      for i := 0 to samples.Length {
        samples[i] := 0;
      }
      writePos, sampleCount, totalCycles, minNs, maxNs, sumNs, overrunCount := 0, 0, 0, U64 - 1, 0, 0, 0;
      log := [];
    }
  }

  /** Sorting has one result. */
  lemma {:induction false} SortedUnique(a: seq<nat>, b: seq<nat>)
    requires IsSorted(a) && IsSorted(b) && multiset(a) == multiset(b)
    ensures a == b
    decreases |a|
  {
    SameLength(a, b);
    hide IsSorted;
    if a != [] {
      var n := |a| - 1;
      Tails(a, b);
      SortedUnique(a[..n], b[..n]);
      assert a == a[..n] + [a[n]] && b == b[..n] + [b[n]];
    }
  }

  lemma Tails(a: seq<nat>, b: seq<nat>)
    requires IsSorted(a) && IsSorted(b) && multiset(a) == multiset(b) && |a| == |b| > 0
    ensures var n := |a| - 1;
            && a[n] == b[n] && IsSorted(a[..n]) && IsSorted(b[..n]) && multiset(a[..n]) == multiset(b[..n])
  {
    var n := |a| - 1;
    assert a[n] in multiset(b) && b[n] in multiset(a);
    assert a[n] == b[n];
    SortedPrefix(a, n);
    SortedPrefix(b, n);
    hide IsSorted;
    WithoutLast(a);
    WithoutLast(b);
  }
}
