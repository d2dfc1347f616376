/** Fixed-size rings: slots overwritten in turn, holding the end of an unbounded log. */
module Rings {
  import opened Arithmetic

  /** Slot `k % |slots|` holds entry `k` of the log, for the last `|slots|` entries. */
  ghost predicate Holds<T>(slots: seq<T>, log: seq<T>)
  {
    |slots| > 0 && forall k :: 0 <= k < |log| && |log| <= k + |slots| ==> slots[k % |slots|] == log[k]
  }

  /** The last `n` entries. */
  function Last<T>(log: seq<T>, n: nat): (r: seq<T>)
    requires n <= |log|
    ensures |r| == n
  {
    log[|log| - n..]
  }

  function Reversed<T>(s: seq<T>): (r: seq<T>)
    ensures |r| == |s|
  {
    seq(|s|, (i: nat) requires i < |s| => s[|s| - 1 - i])
  }

  /** Fewer than `m` apart means different slots. */
  lemma DifferentSlots(k: nat, n: nat, m: nat)
    requires k < n < k + m
    ensures k % m != n % m
  {
    var p, r := k / m, k % m;
    assert k == p * m + r;
    if r + (n - k) < m {
      ModUnique(n, m, p, r + (n - k));
    } else {
      assert n == (p + 1) * m + (r + (n - k) - m);
      ModUnique(n, m, p + 1, r + (n - k) - m);
    }
  }

  lemma PushHolds<T>(slots: seq<T>, log: seq<T>, x: T)
    requires Holds(slots, log)
    ensures Holds(slots[|log| % |slots| := x], log + [x])
  {
    var m, n := |slots|, |log|;
    var slots', log' := slots[n % m := x], log + [x];
    forall k | 0 <= k < |log'| && |log'| <= k + m
      ensures slots'[k % m] == log'[k]
    {
      if k < n {
        DifferentSlots(k, n, m);
      }
    }
  }

  lemma NextSlot(n: nat, m: nat)
    requires m > 0
    ensures (n % m + 1) % m == (n + 1) % m
  {
    ModShift(n, 1, m);
  }

  /** The slots from the oldest one on are the end of the log in order. */
  lemma Chronological<T>(slots: seq<T>, log: seq<T>, i: nat)
    requires Holds(slots, log) && i < Min(|log|, |slots|)
    ensures var n, m := |log|, |slots|;
            slots[((if n > m then n % m else 0) + i) % m] == Last(log, Min(n, m))[i]
  {
    var n, m := |log|, |slots|;
    if n > m {
      var k := n - m + i;
      ModShift(k, 0, m);
      ModShift(n, i, m);
      assert k + m == n + i;
    }
  }

  /** The slots before the write position, backwards, are the end of the log in reverse. */
  lemma Backwards<T>(slots: seq<T>, log: seq<T>, i: nat)
    requires Holds(slots, log) && i < Min(|log|, |slots|)
    ensures var n, m := |log|, |slots|;
            slots[(n % m + m - 1 - i) % m] == log[n - 1 - i]
  {
    var n, m := |log|, |slots|;
    var k := n - 1 - i;
    ModShift(k, 0, m);
    ModShift(n, m - 1 - i, m);
    assert k + m == n + (m - 1 - i);
  }
}
