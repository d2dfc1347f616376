/** The IEC 61131-3 timers TON, TOF and TP, called once per scan with the time since the last scan. */
module Timers {
  import opened Arithmetic

  const I64_MAX: int := 0x7FFF_FFFF_FFFF_FFFF

  function SaturatingAdd(a: int, b: int): int { if a + b > I64_MAX then I64_MAX else a + b }

  /** Negative times count as zero. */
  function NonNegative(t: int): nat { if t < 0 then 0 else t }

  /** One scan: the input, and the time since the last scan. */
  datatype Scan = Scan(input: bool, delta: int)

  datatype TonState = TonState(q: bool, et: int)

  const TON_INIT := TonState(false, 0)

  function TonScan(s: TonState, pt: int, x: Scan): TonState
  {
    if !x.input then TON_INIT
    else
      var preset := NonNegative(pt);
      var et := if s.et < preset then Min(SaturatingAdd(s.et, NonNegative(x.delta)), preset) else s.et;
      TonState(et >= preset, et)
  }

  function TonAfter(pt: int, xs: seq<Scan>): TonState
  {
    if xs == [] then TON_INIT else TonScan(TonAfter(pt, xs[..|xs| - 1]), pt, xs[|xs| - 1])
  }

  datatype TofState = TofState(q: bool, et: int, prevIn: bool, running: bool)

  const TOF_INIT := TofState(false, 0, false, false)

  function TofScan(s: TofState, pt: int, x: Scan): TofState
  {
    var preset, delta := NonNegative(pt), NonNegative(x.delta);
    if x.input then TofState(true, 0, true, false)
    else if s.prevIn then
      var et := Min(delta, preset);
      TofState(et < preset, et, false, true)
    else if s.running then
      var et := Min(SaturatingAdd(s.et, delta), preset);
      if et >= preset then TofState(false, et, false, false) else TofState(s.q, et, false, true)
    else s.(prevIn := false)
  }

  function TofAfter(pt: int, xs: seq<Scan>): TofState
  {
    if xs == [] then TOF_INIT else TofScan(TofAfter(pt, xs[..|xs| - 1]), pt, xs[|xs| - 1])
  }

  datatype TpState = TpState(q: bool, et: int, prevIn: bool, running: bool)

  const TP_INIT := TpState(false, 0, false, false)

  function TpScan(s: TpState, pt: int, x: Scan): TpState
  {
    var preset := NonNegative(pt);
    var started := if x.input && !s.prevIn && !s.running then TpState(true, 0, s.prevIn, true) else s;
    if !started.running then started.(prevIn := x.input)
    else
      var et := Min(SaturatingAdd(started.et, NonNegative(x.delta)), preset);
      if et >= preset then TpState(false, 0, x.input, false) else TpState(started.q, et, x.input, true)
  }

  function TpAfter(s: TpState, pt: int, xs: seq<Scan>): TpState
  {
    if xs == [] then s else TpScan(TpAfter(s, pt, xs[..|xs| - 1]), pt, xs[|xs| - 1])
  }

  // ---- Closed forms ------------------------------------------------------------------

  /** The time that passed with a scan; a clock that goes back counts as standing still. */
  function Passed(x: Scan): nat { if x.delta > 0 then x.delta else 0 }

  /** The preset time; a negative one is none. */
  function Preset(pt: int): nat { if pt > 0 then pt else 0 }

  /** Time accumulated over the scans at the end whose input is `level`. */
  function RunTime(xs: seq<Scan>, level: bool): nat
  {
    if xs == [] || xs[|xs| - 1].input != level then 0
    else RunTime(xs[..|xs| - 1], level) + Passed(xs[|xs| - 1])
  }

  predicate LastInput(xs: seq<Scan>) { xs != [] && xs[|xs| - 1].input }

  /** TON: the elapsed time is the time the input has been TRUE, capped at the preset time; the output is TRUE
      exactly when the input is and has been for the preset time. */
  lemma {:induction false} TonClosedForm(pt: int, xs: seq<Scan>)
    requires pt <= I64_MAX
    ensures var s, preset := TonAfter(pt, xs), Preset(pt);
            && s.et == (if LastInput(xs) then Min(preset, RunTime(xs, true)) else 0)
            && s.q == (LastInput(xs) && RunTime(xs, true) >= preset)
  {
    if xs != [] {
      TonClosedForm(pt, xs[..|xs| - 1]);
    }
  }

  predicate EverTrue(xs: seq<Scan>) { exists i :: 0 <= i < |xs| && xs[i].input }

  /** TOF: the output is TRUE while the input is, and after that for the preset time; before the first TRUE input
      it is FALSE. */
  lemma {:induction false} TofClosedForm(pt: int, xs: seq<Scan>)
    requires pt <= I64_MAX
    ensures var s, preset := TofAfter(pt, xs), Preset(pt);
            && s.prevIn == LastInput(xs)
            && s.et == (if !LastInput(xs) && EverTrue(xs) then Min(preset, RunTime(xs, false)) else 0)
            && s.q == (EverTrue(xs) && (LastInput(xs) || RunTime(xs, false) < preset))
            && (s.q && !LastInput(xs) ==> s.running)
            && (s.running ==> EverTrue(xs) && !LastInput(xs))
  {
    if xs != [] {
      var init, x := xs[..|xs| - 1], xs[|xs| - 1];
      TofClosedForm(pt, init);
      EverTrueExtends(init, x);
      assert xs == init + [x];
    }
  }

  lemma EverTrueExtends(xs: seq<Scan>, x: Scan)
    ensures EverTrue(xs + [x]) <==> EverTrue(xs) || x.input
  {
    if EverTrue(xs) {
      var i :| 0 <= i < |xs| && xs[i].input;
      assert (xs + [x])[i].input;
    }
    if x.input {
      assert (xs + [x])[|xs|].input;
    }
  }

  function Inverted(xs: seq<Scan>): (r: seq<Scan>)
    ensures |r| == |xs|
  {
    seq(|xs|, (i: nat) requires i < |xs| => Scan(!xs[i].input, xs[i].delta))
  }

  lemma {:induction false} InvertedRunTime(xs: seq<Scan>)
    ensures RunTime(Inverted(xs), true) == RunTime(xs, false)
    ensures xs != [] ==> LastInput(Inverted(xs)) == !LastInput(xs)
  {
    if xs != [] {
      var n := |xs| - 1;
      assert Inverted(xs)[..n] == Inverted(xs[..n]);
      InvertedRunTime(xs[..n]);
    }
  }

  /** TOF is the dual of TON: on the inverted input TON shows the inverted output and the same elapsed time - exactly
      once the input has been TRUE, or if the preset time is zero. */
  lemma TofIsDualOfTon(pt: int, xs: seq<Scan>)
    requires pt <= I64_MAX && xs != []
    ensures var f, n := TofAfter(pt, xs), TonAfter(pt, Inverted(xs));
            (f.q == !n.q && f.et == n.et) <==> (EverTrue(xs) || pt <= 0)
  {
    TofClosedForm(pt, xs);
    TonClosedForm(pt, Inverted(xs));
    InvertedRunTime(xs);
    if LastInput(xs) {
      assert xs[|xs| - 1].input;
    }
  }

  /** Time accumulated from scan `i` to before scan `j`. */
  function Between(xs: seq<Scan>, i: nat, j: nat): nat
    requires j <= |xs|
  {
    if j <= i then 0 else Between(xs, i, j - 1) + Passed(xs[j - 1])
  }

  /** Scan `i` starts a pulse: a rising edge at which every pulse started before has ended. */
  predicate Starts(pt: int, xs: seq<Scan>, i: nat)
    requires i < |xs|
    decreases i
  {
    && xs[i].input && (i == 0 || !xs[i - 1].input)
    && forall j :: 0 <= j < i && Starts(pt, xs, j) ==> Between(xs, j, i) >= Preset(pt)
  }

  /** Scan `i` started a pulse that has not ended yet. */
  predicate PulseRuns(pt: int, xs: seq<Scan>, i: nat)
    requires i < |xs|
  {
    Starts(pt, xs, i) && Between(xs, i, |xs|) < Preset(pt)
  }

  lemma {:induction false} BetweenEarlier(xs: seq<Scan>, x: Scan, i: nat, j: nat)
    requires j <= |xs|
    ensures Between(xs + [x], i, j) == Between(xs, i, j)
  {
    if j > i { BetweenEarlier(xs, x, i, j - 1); }
  }

  lemma {:induction false} StartsEarlier(pt: int, xs: seq<Scan>, x: Scan, i: nat)
    requires i < |xs|
    ensures Starts(pt, xs + [x], i) == Starts(pt, xs, i)
    decreases i
  {
    hide Between;
    forall j | 0 <= j < i
      ensures Starts(pt, xs + [x], j) == Starts(pt, xs, j) && Between(xs + [x], j, i) == Between(xs, j, i)
    {
      StartsEarlier(pt, xs, x, j);
      BetweenEarlier(xs, x, j, i);
    }
  }

  /** An earlier pulse runs on as long as the time counted with the new scan stays below the preset time. */
  lemma PulseExtends(pt: int, xs: seq<Scan>, x: Scan, i: nat)
    requires i < |xs|
    ensures Between(xs + [x], i, |xs| + 1) == Between(xs, i, |xs|) + Passed(x)
    ensures PulseRuns(pt, xs + [x], i) <==>
              Starts(pt, xs, i) && Between(xs, i, |xs|) + Passed(x) < Preset(pt)
  {
    BetweenEarlier(xs, x, i, |xs|);
    StartsEarlier(pt, xs, x, i);
  }

  /** The new scan starts a pulse if its edge is rising and no earlier pulse was running. */
  lemma PulseBegins(pt: int, xs: seq<Scan>, x: Scan)
    ensures Between(xs + [x], |xs|, |xs| + 1) == Passed(x)
    ensures PulseRuns(pt, xs + [x], |xs|) <==>
              && x.input && !LastInput(xs) && Passed(x) < Preset(pt)
              && forall j :: 0 <= j < |xs| ==> !PulseRuns(pt, xs, j)
  {
    var n, all := |xs|, xs + [x];
    assert Between(all, n, n) == 0 && Between(all, n, n + 1) == Passed(x);
    assert all[n] == x && (n > 0 ==> all[n - 1] == xs[n - 1]) && |all| == n + 1;
    hide Between;
    forall j | 0 <= j < n
      ensures Starts(pt, all, j) && Between(all, j, n) < Preset(pt) <==> PulseRuns(pt, xs, j)
    {
      StartsEarlier(pt, xs, x, j);
      BetweenEarlier(xs, x, j, n);
    }
    if exists j :: 0 <= j < n && PulseRuns(pt, xs, j) {
      var j :| 0 <= j < n && PulseRuns(pt, xs, j);
      assert Starts(pt, all, j);
    }
  }

  /** A pulse runs exactly if one is counted, and the time counted is the time since its start. */
  ghost predicate Counts(pt: int, xs: seq<Scan>, running: bool, et: int)
  {
    && (running <==> exists i :: 0 <= i < |xs| && PulseRuns(pt, xs, i))
    && (forall i :: 0 <= i < |xs| && PulseRuns(pt, xs, i) ==> et == Between(xs, i, |xs|))
  }

  /** A running pulse goes on or ends. */
  lemma RunningCounts(pt: int, xs: seq<Scan>, x: Scan, et: int)
    requires Counts(pt, xs, true, et)
    ensures Counts(pt, xs + [x], et + Passed(x) < Preset(pt), et + Passed(x))
  {
    hide Starts, Between;
    PulseBegins(pt, xs, x);
    forall i | 0 <= i < |xs|
      ensures Between(xs + [x], i, |xs| + 1) == Between(xs, i, |xs|) + Passed(x)
      ensures PulseRuns(pt, xs + [x], i) ==> PulseRuns(pt, xs, i)
    {
      PulseExtends(pt, xs, x, i);
    }
    var i :| 0 <= i < |xs| && PulseRuns(pt, xs, i);
    PulseExtends(pt, xs, x, i);
  }

  /** At rest a pulse begins with a rising edge. */
  lemma RestingCounts(pt: int, xs: seq<Scan>, x: Scan, et: int)
    requires Counts(pt, xs, false, et)
    ensures Counts(pt, xs + [x], x.input && !LastInput(xs) && Passed(x) < Preset(pt), Passed(x))
  {
    hide Starts, Between;
    PulseBegins(pt, xs, x);
    forall i | 0 <= i < |xs|
      ensures !PulseRuns(pt, xs + [x], i)
    {
      PulseExtends(pt, xs, x, i);
    }
  }

  /** TP: the output is TRUE exactly while a pulse runs, and the elapsed time is the time since its start. */
  lemma {:induction false} TpClosedForm(pt: int, xs: seq<Scan>)
    requires pt <= I64_MAX
    ensures var s := TpAfter(TP_INIT, pt, xs);
            && s.q == s.running == (exists i :: 0 <= i < |xs| && PulseRuns(pt, xs, i))
            && (forall i :: 0 <= i < |xs| && PulseRuns(pt, xs, i) ==> s.et == Between(xs, i, |xs|))
            && (!s.q ==> s.et == 0) && s.prevIn == LastInput(xs)
  {
    hide PulseRuns, Between;
    if xs != [] {
      var init, x := xs[..|xs| - 1], xs[|xs| - 1];
      assert xs == init + [x];
      TpClosedForm(pt, init);
      var s := TpAfter(TP_INIT, pt, init);
      if s.running { RunningCounts(pt, init, x, s.et); } else { RestingCounts(pt, init, x, s.et); }
    }
  }

  /** TP as section 6.6.3.5.5 of IEC 61131-3:2013 has it: after the pulse the elapsed time stays at the preset time until
      the input is FALSE. */
  function StandardTpScan(s: TpState, pt: int, x: Scan): TpState
  {
    var t := TpScan(s, pt, x);
    if t.running then t
    else if !x.input then t.(et := 0)
    else t.(et := if s.running || !s.prevIn then Preset(pt) else s.et)
  }

  function StandardTpAfter(s: TpState, pt: int, xs: seq<Scan>): TpState
  {
    if xs == [] then s else StandardTpScan(StandardTpAfter(s, pt, xs[..|xs| - 1]), pt, xs[|xs| - 1])
  }

  /** The code agrees in everything but the elapsed time, and in that exactly while a pulse runs or the input is FALSE
      (or if the preset time is zero). */
  lemma {:induction false} TpElapsedIsStandardIff(pt: int, xs: seq<Scan>)
    requires pt <= I64_MAX
    ensures var s, t := TpAfter(TP_INIT, pt, xs), StandardTpAfter(TP_INIT, pt, xs);
            && t == s.(et := if s.running || !LastInput(xs) then s.et else Preset(pt))
            && (s.et == t.et <==> s.running || !LastInput(xs) || pt <= 0)
  {
    TpClosedForm(pt, xs);
    if xs != [] {
      TpElapsedIsStandardIff(pt, xs[..|xs| - 1]);
      TpClosedForm(pt, xs[..|xs| - 1]);
    }
    hide PulseRuns, Between, Starts;
  }

  // ---- The function blocks -----------------------------------------------------------

  class Ton {
    var q: bool
    var et: int
    var prevIn: bool

    function Current(): TonState
      reads this
    {
      TonState(q, et)
    }

    constructor ()
      ensures Current() == TON_INIT
    {
      q, et, prevIn := false, 0, false;
    }

    method Call(input: bool, pt: int, delta: int) returns (out: bool, elapsed: int)
      modifies this
      ensures Current() == TonScan(old(Current()), pt, Scan(input, delta)) && out == q && elapsed == et
    {
      var preset, step := NonNegative(pt), NonNegative(delta);
      if input {
        if et < preset {
          et := Min(SaturatingAdd(et, step), preset);
        }
        q := et >= preset;
      } else {
        q := false;
        et := 0;
      }
      prevIn := input;
      return q, et;
    }
  }

  class Tof {
    var q: bool
    var et: int
    var prevIn: bool
    var running: bool

    function Current(): TofState
      reads this
    {
      TofState(q, et, prevIn, running)
    }

    constructor ()
      ensures Current() == TOF_INIT
    {
      q, et, prevIn, running := false, 0, false, false;
    }

    method Call(input: bool, pt: int, delta: int) returns (out: bool, elapsed: int)
      modifies this
      ensures Current() == TofScan(old(Current()), pt, Scan(input, delta)) && out == q && elapsed == et
    {
      var preset, step := NonNegative(pt), NonNegative(delta);
      if input {
        q := true;
        et := 0;
        running := false;
      } else if prevIn {
        running := true;
        et := Min(step, preset);
        q := et < preset;
      } else if running {
        et := Min(SaturatingAdd(et, step), preset);
        if et >= preset {
          q := false;
          running := false;
        }
      }
      prevIn := input;
      return q, et;
    }
  }

  class Tp {
    var q: bool
    var et: int
    var prevIn: bool
    var running: bool

    function Current(): TpState
      reads this
    {
      TpState(q, et, prevIn, running)
    }

    constructor ()
      ensures Current() == TP_INIT
    {
      q, et, prevIn, running := false, 0, false, false;
    }

    method Call(input: bool, pt: int, delta: int) returns (out: bool, elapsed: int)
      modifies this
      ensures Current() == TpScan(old(Current()), pt, Scan(input, delta)) && out == q && elapsed == et
    {
      var preset, step := NonNegative(pt), NonNegative(delta);
      if input && !prevIn && !running {
        running := true;
        q := true;
        et := 0;
      }
      if running {
        et := Min(SaturatingAdd(et, step), preset);
        if et >= preset {
          q := false;
          running := false;
          et := 0;
        }
      }
      prevIn := input;
      return q, et;
    }
  }
}
