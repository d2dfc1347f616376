/** Counting of fieldbus failures with a grace period before recovery. */
module FailureStreak {

  /** The loop's counters: failures counted, whether a streak is going on, and the successes still missing. */
  datatype Tracker = Tracker(failures: nat, inStreak: bool, remaining: nat)

  const NO_FAILURES := Tracker(0, false, 0)

  function OnFailure(t: Tracker): Tracker { Tracker(t.failures + 1, true, 0) }

  function OnSuccess(t: Tracker, grace: nat): Tracker
  {
    if !t.inStreak then t
    else
      var pending := if t.remaining == 0 then grace else t.remaining;
      var left := if pending > 0 then pending - 1 else 0;
      if left == 0 then NO_FAILURES else t.(remaining := left)
  }

  /** The counters after a sequence of exchanges, each successful or not. */
  function TrackerAfter(results: seq<bool>, grace: nat): Tracker
  {
    if results == [] then NO_FAILURES
    else
      var before := TrackerAfter(results[..|results| - 1], grace);
      if results[|results| - 1] then OnSuccess(before, grace) else OnFailure(before)
  }

  // ---- The meaning of the counters ---------------------------------------------------

  /** Successes needed in a row to recover. */
  function Needed(grace: nat): nat { if grace == 0 then 1 else grace }

  /** The successes at the end. */
  function Trailing(results: seq<bool>): (k: nat)
    ensures k <= |results|
    ensures forall i :: |results| - k <= i < |results| ==> results[i]
    ensures k < |results| ==> !results[|results| - k - 1]
  {
    if results == [] || !results[|results| - 1] then 0 else 1 + Trailing(results[..|results| - 1])
  }

  function Failures(results: seq<bool>): nat
  {
    if results == [] then 0 else Failures(results[..|results| - 1]) + if results[|results| - 1] then 0 else 1
  }

  predicate SuccessesBefore(results: seq<bool>, j: nat, n: nat)
  {
    n <= j <= |results| && forall i :: j - n <= i < j ==> results[i]
  }

  /** The last position preceded by `n` successes in a row; the beginning if there is none. */
  function Recovery(results: seq<bool>, n: nat): (r: nat)
    requires n > 0
    ensures r <= |results| && (r > 0 ==> SuccessesBefore(results, r, n))
    ensures forall j :: r < j <= |results| ==> !SuccessesBefore(results, j, n)
  {
    if results == [] then 0
    else if Trailing(results) >= n then |results|
    else
      var init := results[..|results| - 1];
      var r := Recovery(init, n);
      assert forall j :: 0 <= j <= |init| ==> (SuccessesBefore(init, j, n) <==> SuccessesBefore(results, j, n));
      assert !SuccessesBefore(results, |results|, n) by {
        var k := Trailing(results);
        assert k < |results| ==> !results[|results| - k - 1];
      }
      r
  }

  /** Failures since the last recovery. */
  function FailureCount(results: seq<bool>, grace: nat): nat
  {
    Failures(results[Recovery(results, Needed(grace))..])
  }

  lemma PositionsExtend(results: seq<bool>, ok: bool, n: nat)
    requires n > 0
    ensures var all := results + [ok];
            && Trailing(all) == (if ok then Trailing(results) + 1 else 0)
            && Recovery(all, n) == if Trailing(all) >= n then |all| else Recovery(results, n)
  {
    assert (results + [ok])[..|results|] == results;
    hide SuccessesBefore;
  }

  lemma FailuresExtend(results: seq<bool>, ok: bool)
    ensures Failures(results + [ok]) == Failures(results) + if ok then 0 else 1
  {
    assert (results + [ok])[..|results|] == results;
  }

  lemma CountExtends(results: seq<bool>, ok: bool, grace: nat)
    ensures Trailing(results + [ok]) == if ok then Trailing(results) + 1 else 0
    ensures FailureCount(results + [ok], grace) ==
              if Trailing(results + [ok]) >= Needed(grace) then 0
              else FailureCount(results, grace) + if ok then 0 else 1
  {
    var all, n := results + [ok], Needed(grace);
    var r := Recovery(results, n);
    PositionsExtend(results, ok, n);
    assert Failures([]) == 0;
    hide Recovery, Trailing, SuccessesBefore, Failures, Needed;
    if Trailing(all) < n {
      assert all[r..] == results[r..] + [ok];
      FailuresExtend(results[r..], ok);
    } else {
      assert all[|all|..] == [];
    }
  }

  /** The counters are a function of the results: failures since the last recovery; a streak goes on exactly while
      that count is positive; and the successes still missing complete the needed number. */
  lemma {:induction false} CountersMean(results: seq<bool>, grace: nat)
    ensures var t, k := TrackerAfter(results, grace), Trailing(results);
            && t.failures == FailureCount(results, grace)
            && (t.inStreak <==> t.failures > 0)
            && (t.inStreak ==> k < Needed(grace))
            && t.remaining == if t.inStreak && k > 0 then Needed(grace) - k else 0
  {
    if results == [] {
      assert results[0..] == [];
    } else {
      var init, ok := results[..|results| - 1], results[|results| - 1];
      CountersMean(init, grace);
      assert results == init + [ok];
      CountExtends(init, ok, grace);
    }
  }

  /** A streak ends exactly with the last of the needed successes in a row. */
  lemma RecoversExactlyWhen(results: seq<bool>, grace: nat)
    requires TrackerAfter(results, grace).inStreak
    ensures TrackerAfter(results + [true], grace).inStreak <==> Trailing(results) + 1 < Needed(grace)
    ensures Trailing(results) < Needed(grace)
  {
    CountersMean(results, grace);
    assert (results + [true])[..|results|] == results;
  }
}
