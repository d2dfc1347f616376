/** The daemon's main loop: fieldbus exchange, failure policy, and scan cycles. */
module Daemon {
  import opened RuntimeState
  import opened IoImage
  import opened Metrics
  import opened Scheduler
  import opened FailureStreak

  datatype Exchange = Succeeded | WkcThresholdExceeded | Failed

  /** What the environment contributes to one iteration: a shutdown request, the result of the exchange, the
      inputs read from the bus, and what happens in the scan cycle. */
  datatype Tick = Tick(shutdown: bool, exchange: Exchange, digital: nat, analog: seq<int>, cycle: Cycle)

  /** `maxFailures` and `maxCycles` mean no limit when zero. */
  datatype Policy = Policy(maxFailures: nat, grace: nat, maxCycles: nat)

  datatype Ending = Looping | Shutdown | WkcFault | BusFault | CycleFault | CycleLimit

  /** The loop's state: the scheduler, the failure counters, the outputs staged in the driver, everything sent over
      the bus so far, the completed cycles, and whether the loop has ended. */
  datatype Loop = Loop(sched: Sched, tracker: Tracker, staged: Outputs, wire: seq<Outputs>, cycles: nat, ending: Ending)

  // ---- What one iteration does -------------------------------------------------------

  /** Outside a failure streak the outputs of the logic are staged; whatever is staged is sent. */
  function Sent(l: Loop): Loop
  {
    var staged := if l.tracker.inStreak then l.staged else Published(l.sched);
    l.(staged := staged, wire := l.wire + [staged])
  }

  /** Staging other outputs and sending them at once. */
  function Resent(l: Loop, o: Outputs): Loop { l.(staged := o, wire := l.wire + [o]) }

  function Exchanged(cfg: Config, p: Policy, l: Loop, x: Exchange): Loop
  {
    var s := Sent(l);
    match x
    case WkcThresholdExceeded => s.(sched := Faulted(cfg, s.sched), ending := WkcFault)
    case Failed =>
      var f := Resent(s.(tracker := OnFailure(s.tracker)), ALL_OFF);
      if p.maxFailures > 0 && f.tracker.failures >= p.maxFailures
      then f.(sched := Faulted(cfg, f.sched), ending := BusFault)
      else f
    case Succeeded =>
      var t := OnSuccess(s.tracker, p.grace);
      var r := s.(tracker := t);
      if s.tracker.inStreak && !t.inStreak then Resent(r, Published(r.sched)) else r
  }

  function Cycled(cfg: Config, p: Policy, l: Loop, x: Tick): Loop
  {
    var s := InputsWritten(l.sched, x.digital, x.analog);
    var s' := CycleRun(cfg, s, x.cycle);
    if !CycleSucceeds(cfg, s, x.cycle) then l.(sched := s', ending := CycleFault)
    else l.(sched := s', cycles := l.cycles + 1,
            ending := if p.maxCycles > 0 && l.cycles + 1 >= p.maxCycles then CycleLimit else Looping)
  }

  function Iterate(cfg: Config, p: Policy, l: Loop, x: Tick): Loop
    requires l.ending.Looping?
  {
    if x.shutdown then l.(ending := Shutdown)
    else
      var e := Exchanged(cfg, p, l, x.exchange);
      if e.ending.Looping? then Cycled(cfg, p, e, x) else e
  }

  /** The loop after the given iterations, or where it ended before. */
  function LoopAfter(cfg: Config, p: Policy, l: Loop, xs: seq<Tick>): Loop
  {
    if xs == [] then l
    else
      var before := LoopAfter(cfg, p, l, xs[..|xs| - 1]);
      if before.ending.Looping? then Iterate(cfg, p, before, xs[|xs| - 1]) else before
  }

  /** The loop's start: a started scheduler and a driver with anything staged. */
  function LoopStart(s: Sched, staged: Outputs): Loop { Loop(s, NO_FAILURES, staged, [], 0, Looping) }

  // ---- Properties of whole runs --------------------------------------------------------

  /** The results of the exchanges, in order. */
  function Results(xs: seq<Tick>): seq<bool>
  {
    if xs == [] then [] else Results(xs[..|xs| - 1]) + [xs[|xs| - 1].exchange.Succeeded?]
  }

  /** While the loop goes on, the runtime is in RUN, the counters are those of the results so far and below the
      limit, and during a streak nothing but zeros is staged. */
  ghost predicate LoopInv(p: Policy, l: Loop, results: seq<bool>)
  {
    && (l.ending.Looping? ==>
          && l.sched.machine.current == Run
          && l.tracker == TrackerAfter(results, p.grace)
          && (p.maxFailures > 0 ==> l.tracker.failures < p.maxFailures)
          && (l.tracker.inStreak ==> l.staged == ALL_OFF))
    && (l.ending in {Shutdown, CycleLimit} ==> l.sched.machine.current == Run)
  }

  /** A loop that ended with a fault has left the outputs safe. */
  ghost predicate EndInv(cfg: Config, l: Loop)
  {
    l.ending in {WkcFault, BusFault, CycleFault} ==>
      l.sched.machine.current == Fault && Published(l.sched) == SafeValue(cfg.safeOutputs, l.sched.last)
  }

  lemma CycleEnds(cfg: Config, s: Sched, c: Cycle)
    requires s.machine.current == Run
    ensures var s' := CycleRun(cfg, s, c);
            if CycleSucceeds(cfg, s, c) then s'.machine.current == Run
            else s'.machine.current == Fault && Published(s') == SafeValue(cfg.safeOutputs, s'.last)
  {
    hide SafeValue;
  }

  lemma ExchangeKeepsInv(cfg: Config, p: Policy, l: Loop, x: Exchange, results: seq<bool>)
    requires l.ending.Looping? && LoopInv(p, l, results)
    ensures var e := Exchanged(cfg, p, l, x);
            LoopInv(p, e, results + [x.Succeeded?]) && EndInv(cfg, e) && (e.ending.Looping? || e.ending in {WkcFault, BusFault})
  {
    hide SafeValue;
    assert (results + [x.Succeeded?])[..|results|] == results;
  }

  lemma IterationKeepsInv(cfg: Config, p: Policy, l: Loop, x: Tick, results: seq<bool>)
    requires l.ending.Looping? && LoopInv(p, l, results)
    ensures var l' := Iterate(cfg, p, l, x); LoopInv(p, l', results + [x.exchange.Succeeded?]) && EndInv(cfg, l')
  {
    if !x.shutdown {
      ExchangeKeepsInv(cfg, p, l, x.exchange, results);
      var e := Exchanged(cfg, p, l, x.exchange);
      hide Exchanged, SafeValue, CycleRun, CycleSucceeds, TrackerAfter;
      if e.ending.Looping? {
        CycleEnds(cfg, InputsWritten(e.sched, x.digital, x.analog), x.cycle);
      }
    }
  }

  lemma {:induction false} LoopKeepsInv(cfg: Config, p: Policy, s: Sched, staged: Outputs, xs: seq<Tick>)
    requires s.machine.current == Run
    ensures var l := LoopAfter(cfg, p, LoopStart(s, staged), xs); LoopInv(p, l, Results(xs)) && EndInv(cfg, l)
  {
    if xs != [] {
      var init := xs[..|xs| - 1];
      LoopKeepsInv(cfg, p, s, staged, init);
      var l := LoopAfter(cfg, p, LoopStart(s, staged), init);
      if l.ending.Looping? {
        IterationKeepsInv(cfg, p, l, xs[|xs| - 1], Results(init));
      }
    }
  }

  /** While the loop goes on, the failure counter is the number of failures since the last recovery. */
  lemma FailureHysteresis(cfg: Config, p: Policy, s: Sched, staged: Outputs, xs: seq<Tick>)
    requires s.machine.current == Run && LoopAfter(cfg, p, LoopStart(s, staged), xs).ending.Looping?
    ensures var l := LoopAfter(cfg, p, LoopStart(s, staged), xs);
            && l.tracker.failures == FailureCount(Results(xs), p.grace)
            && (l.tracker.inStreak <==> FailureCount(Results(xs), p.grace) > 0)
            && (p.maxFailures > 0 ==> FailureCount(Results(xs), p.grace) < p.maxFailures)
  {
    LoopKeepsInv(cfg, p, s, staged, xs);
    CountersMean(Results(xs), p.grace);
  }

  /** The bus-failure fault is entered exactly at the failure that makes the count reach a limit other than zero. */
  lemma BusFaultExactlyAtLimit(cfg: Config, p: Policy, s: Sched, staged: Outputs, xs: seq<Tick>, x: Tick)
    requires s.machine.current == Run && LoopAfter(cfg, p, LoopStart(s, staged), xs).ending.Looping? && !x.shutdown
    ensures LoopAfter(cfg, p, LoopStart(s, staged), xs + [x]).ending.BusFault? <==>
              x.exchange.Failed? && p.maxFailures > 0 && FailureCount(Results(xs) + [false], p.grace) == p.maxFailures
  {
    FailureHysteresis(cfg, p, s, staged, xs);
    assert (xs + [x])[..|xs|] == xs;
    var l := LoopAfter(cfg, p, LoopStart(s, staged), xs);
    assert LoopAfter(cfg, p, LoopStart(s, staged), xs + [x]) == Iterate(cfg, p, l, x);
    hide Iterate, FailureCount, Trailing, LoopAfter, Results;
    CountExtends(Results(xs), false, p.grace);
    BusFaultOf(cfg, p, l, x);
  }

  lemma BusFaultOf(cfg: Config, p: Policy, l: Loop, x: Tick)
    requires l.ending.Looping? && !x.shutdown
    ensures Iterate(cfg, p, l, x).ending.BusFault? <==>
              x.exchange.Failed? && p.maxFailures > 0 && l.tracker.failures + 1 >= p.maxFailures
  {
    hide CycleRun, CycleSucceeds, Faulted;
  }

  /** What an iteration sends. Outside a streak it is the published outputs, followed by zeros if the exchange fails.
      During a streak it is zeros, followed by the published outputs only at the last success needed to recover. */
  lemma ZerosThroughoutStreak(cfg: Config, p: Policy, s: Sched, staged: Outputs, xs: seq<Tick>, x: Tick)
    requires s.machine.current == Run && LoopAfter(cfg, p, LoopStart(s, staged), xs).ending.Looping? && !x.shutdown
    ensures var l, l' := LoopAfter(cfg, p, LoopStart(s, staged), xs), LoopAfter(cfg, p, LoopStart(s, staged), xs + [x]);
            var streak := FailureCount(Results(xs), p.grace) > 0;
            var recovers := streak && x.exchange.Succeeded? && Trailing(Results(xs)) + 1 == Needed(p.grace);
            && l'.wire == l.wire + [if streak then ALL_OFF else Published(l.sched)]
                          + (if x.exchange.Failed? then [ALL_OFF] else if recovers then [Published(l.sched)] else [])
            && l'.staged == if x.exchange.Failed? || (streak && !recovers) then ALL_OFF else Published(l.sched)
  {
    LoopKeepsInv(cfg, p, s, staged, xs);
    CountersMean(Results(xs), p.grace);
    if TrackerAfter(Results(xs), p.grace).inStreak {
      RecoversExactlyWhen(Results(xs), p.grace);
    }
    assert (xs + [x])[..|xs|] == xs;
    assert (Results(xs) + [true])[..|Results(xs)|] == Results(xs);
    hide CycleRun, CycleSucceeds, FailureCount, Faulted, Trailing, LoopAfter;
    SentByIteration(cfg, p, LoopAfter(cfg, p, LoopStart(s, staged), xs), x);
  }

  lemma SentByIteration(cfg: Config, p: Policy, l: Loop, x: Tick)
    requires l.ending.Looping? && !x.shutdown
    ensures var l', e := Iterate(cfg, p, l, x), Exchanged(cfg, p, l, x.exchange);
            l'.wire == e.wire && l'.staged == e.staged
  {
    hide Exchanged, CycleRun, CycleSucceeds;
  }

  /** While the loop goes on, every iteration has completed a cycle. */
  lemma {:induction false} OneCycleEach(cfg: Config, p: Policy, s: Sched, staged: Outputs, xs: seq<Tick>)
    requires LoopAfter(cfg, p, LoopStart(s, staged), xs).ending.Looping?
    ensures LoopAfter(cfg, p, LoopStart(s, staged), xs).cycles == |xs|
  {
    hide CycleRun, CycleSucceeds, Faulted, OnSuccess, Published;
    if xs != [] { OneCycleEach(cfg, p, s, staged, xs[..|xs| - 1]); }
  }

  /** One iteration, by the counters of the loop. */
  lemma IterationOf(cfg: Config, p: Policy, l: Loop, x: Tick)
    requires l.ending.Looping? && l.sched.machine.current == Run
    ensures var l' := Iterate(cfg, p, l, x);
            if x.shutdown then l' == l.(ending := Shutdown)
            else if x.exchange.WkcThresholdExceeded? then l'.ending == WkcFault && l'.sched == Faulted(cfg, l.sched)
            else if x.exchange.Failed? && p.maxFailures > 0 && l.tracker.failures + 1 >= p.maxFailures
            then l'.ending == BusFault && l'.sched == Faulted(cfg, l.sched)
            else
              && l'.sched == CycleRun(cfg, InputsWritten(l.sched, x.digital, x.analog), x.cycle)
              && l'.ending == if Fails(cfg, x.cycle) then CycleFault
                              else if p.maxCycles > 0 && l.cycles + 1 >= p.maxCycles then CycleLimit else Looping
  {
    hide CycleRun, Fails, Faulted, Published, InputsWritten;
    InputsKeepState(l.sched, x.digital, x.analog);
  }

  /** How an iteration ends: a shutdown request ends the loop before anything is sent, an exceeded working-counter
      threshold and the failure at the limit end it before the cycle; otherwise the cycle runs on the inputs just read,
      and the loop ends if it fails, or if it is the last of a limited number. */
  lemma IterationEnds(cfg: Config, p: Policy, s: Sched, staged: Outputs, xs: seq<Tick>, x: Tick)
    requires s.machine.current == Run && LoopAfter(cfg, p, LoopStart(s, staged), xs).ending.Looping?
    ensures var l, l' := LoopAfter(cfg, p, LoopStart(s, staged), xs), LoopAfter(cfg, p, LoopStart(s, staged), xs + [x]);
            var limit := p.maxFailures > 0 && FailureCount(Results(xs) + [false], p.grace) == p.maxFailures;
            if x.shutdown then l' == l.(ending := Shutdown)
            else if x.exchange.WkcThresholdExceeded? then l'.ending == WkcFault && l'.sched == Faulted(cfg, l.sched)
            else if x.exchange.Failed? && limit then l'.ending == BusFault && l'.sched == Faulted(cfg, l.sched)
            else
              && l'.sched == CycleRun(cfg, InputsWritten(l.sched, x.digital, x.analog), x.cycle)
              && l'.ending == if Fails(cfg, x.cycle) then CycleFault
                              else if p.maxCycles > 0 && |xs| + 1 == p.maxCycles then CycleLimit else Looping
  {
    OneCycleEach(cfg, p, s, staged, xs);
    RunsOn(cfg, p, s, staged, xs);
    if xs != [] && p.maxCycles > 0 { CyclesBelowLimit(cfg, p, s, staged, xs); }
    if !x.shutdown { BusFaultExactlyAtLimit(cfg, p, s, staged, xs, x); }
    assert (xs + [x])[..|xs|] == xs;
    var l := LoopAfter(cfg, p, LoopStart(s, staged), xs);
    assert LoopAfter(cfg, p, LoopStart(s, staged), xs + [x]) == Iterate(cfg, p, l, x);
    hide *;
    IterationOf(cfg, p, l, x);
  }

  lemma RunsOn(cfg: Config, p: Policy, s: Sched, staged: Outputs, xs: seq<Tick>)
    requires s.machine.current == Run && LoopAfter(cfg, p, LoopStart(s, staged), xs).ending.Looping?
    ensures LoopAfter(cfg, p, LoopStart(s, staged), xs).sched.machine.current == Run
  {
    hide LoopAfter, TrackerAfter, EndInv;
    LoopKeepsInv(cfg, p, s, staged, xs);
  }

  lemma InputsKeepState(s: Sched, digital: nat, analog: seq<int>)
    ensures InputsWritten(s, digital, analog).machine == s.machine
  {}

  lemma {:induction false} CyclesBelowLimit(cfg: Config, p: Policy, s: Sched, staged: Outputs, xs: seq<Tick>)
    requires LoopAfter(cfg, p, LoopStart(s, staged), xs).ending.Looping? && xs != [] && p.maxCycles > 0
    ensures |xs| < p.maxCycles
  {
    OneCycleEach(cfg, p, s, staged, xs);
    hide CycleRun, CycleSucceeds, Faulted, OnSuccess, Published;
  }

  // ---- The whole program -----------------------------------------------------------------

  /** After the loop the scheduler is stopped. */
  function Final(cfg: Config, l: Loop): Sched { Stopped(cfg, l.sched) }

  /** However the loop ends, the runtime ends in FAULT or SAFE_STOP - in FAULT exactly after a fault - and the
      published outputs are those the policy prescribes. */
  lemma EndsSafely(cfg: Config, p: Policy, s: Sched, staged: Outputs, xs: seq<Tick>)
    requires s.machine.current == Run && !LoopAfter(cfg, p, LoopStart(s, staged), xs).ending.Looping?
    ensures var l := LoopAfter(cfg, p, LoopStart(s, staged), xs);
            var f := Final(cfg, l);
            && f.machine.current == (if l.ending in {Shutdown, CycleLimit} then SafeStop else Fault)
            && Published(f) == SafeValue(cfg.safeOutputs, f.last) && f.last == l.sched.last
            && SafeFor(cfg.safeOutputs, f.outputs.front.digitalOutputs, f.outputs.front.analogOutputs, f.last)
  {
    LoopKeepsInv(cfg, p, s, staged, xs);
    SafeValueIsSafe(cfg.safeOutputs, Final(cfg, LoopAfter(cfg, p, LoopStart(s, staged), xs)).last);
    hide SafeValue, LoopAfter, TrackerAfter;
  }

  // ---- The loop --------------------------------------------------------------------------

  /** The staging area of a fieldbus driver and the traffic it produces. */
  class FieldbusDriver {
    var staged: Outputs
    ghost var wire: seq<Outputs>

    method SetOutputs(o: Outputs)
      modifies this`staged
      ensures staged == o
    {
      staged := o;
    }

    /** Sends what is staged; the result comes from the environment. */
    method Exchange()
      modifies this`wire
      ensures wire == old(wire) + [staged]
    {
      wire := wire + [staged];
    }
  }

  /** Stages the published outputs and sends them. */
  method SendPublished(s: Scheduler, driver: FieldbusDriver)
    requires s.Valid()
    modifies driver
    ensures driver.staged == Published(s.Current()) && driver.wire == old(driver.wire) + [driver.staged]
  {
    var outputs := s.io.outputs.Read();
    driver.SetOutputs(OutputFields(outputs));
    driver.Exchange();
  }

  /** A success during a streak: one step towards recovery, and at its end the published outputs are sent again. */
  method Recover(s: Scheduler, driver: FieldbusDriver, p: Policy, t: Tracker) returns (t': Tracker)
    requires s.Valid() && t.inStreak
    modifies driver
    ensures t' == OnSuccess(t, p.grace)
    ensures if t'.inStreak then driver.staged == old(driver.staged) && driver.wire == old(driver.wire)
            else driver.staged == Published(s.Current()) && driver.wire == old(driver.wire) + [driver.staged]
  {
    var failures, inStreak, remaining := t.failures, true, t.remaining;
    if remaining == 0 {
      remaining := p.grace;
    }
    if remaining > 0 {
      remaining := remaining - 1;
    }
    if remaining == 0 {
      inStreak, failures := false, 0;
      SendPublished(s, driver);
    }
    t' := Tracker(failures, inStreak, remaining);
  }

  /** The part of an iteration that talks to the bus. */
  method ExchangePhase(s: Scheduler, driver: FieldbusDriver, p: Policy, x: Exchange, t: Tracker, ghost l: Loop)
    returns (t': Tracker, ending: Ending)
    requires s.Valid() && driver !in s.Repr()
    requires l.ending.Looping? && l.sched == s.Current() && l.tracker == t && l.staged == driver.staged && l.wire == driver.wire
    modifies s.Repr(), driver
    ensures s.Valid()
    ensures var e := Exchanged(s.cfg, p, l, x);
            && s.Current() == e.sched && t' == e.tracker && ending == e.ending
            && driver.staged == e.staged && driver.wire == e.wire && e.cycles == l.cycles
  {
    hide Faulted, OnSuccess, Published;
    t', ending := t, Looping;
    if !t.inStreak {
      SendPublished(s, driver);
    } else {
      driver.Exchange();
    }
    match x
    case WkcThresholdExceeded =>
      s.EnterFault();
      ending := WkcFault;
    case Failed =>
      t' := Tracker(t.failures + 1, true, 0);
      driver.SetOutputs(ALL_OFF);
      driver.Exchange();
      if p.maxFailures > 0 && t'.failures >= p.maxFailures {
        s.EnterFault();
        ending := BusFault;
      }
    case Succeeded =>
      if t.inStreak {
        t' := Recover(s, driver, p, t);
      } else {
        NoStreakToEnd(t, p.grace);
      }
  }

  lemma NoStreakToEnd(t: Tracker, grace: nat)
    requires !t.inStreak
    ensures OnSuccess(t, grace) == t
  {}

  /** The part of an iteration that writes the inputs and runs the scan cycle. */
  method CyclePhase(s: Scheduler, p: Policy, x: Tick, cycles: nat, ghost l: Loop) returns (cycles': nat, ending: Ending)
    requires s.Valid() && l.ending.Looping? && l.sched == s.Current() && l.cycles == cycles && x.cycle.execution < U64
    modifies s.Repr()
    ensures s.Valid()
    ensures var e := Cycled(s.cfg, p, l, x);
            && s.Current() == e.sched && cycles' == e.cycles && ending == e.ending
            && e == l.(sched := e.sched, cycles := e.cycles, ending := e.ending)
  {
    cycles', ending := cycles, Looping;
    s.WriteInputs(x.digital, x.analog);
    var ok := s.RunCycle(x.cycle);
    if !ok { return cycles, CycleFault; }
    cycles' := cycles + 1;
    if p.maxCycles > 0 && cycles' >= p.maxCycles {
      ending := CycleLimit;
    }
  }

  /** Runs the loop over the iterations the environment grants, and stops the scheduler if the loop has ended. */
  method RunSchedulerLoop(s: Scheduler, driver: FieldbusDriver, p: Policy, xs: seq<Tick>) returns (ending: Ending)
    requires s.Valid() && driver !in s.Repr() && s.Current().machine.current == Run && driver.wire == []
    requires forall x <- xs :: x.cycle.execution < U64
    modifies s.Repr(), driver
    ensures s.Valid()
    ensures var l := LoopAfter(s.cfg, p, LoopStart(old(s.Current()), old(driver.staged)), xs);
            && ending == l.ending && driver.staged == l.staged && driver.wire == l.wire
            && s.Current() == if ending.Looping? then l.sched else Final(s.cfg, l)
  {
    var cycles, tracker := 0, NO_FAILURES;
    ending := Looping;
    ghost var start := LoopStart(s.Current(), driver.staged);
    ghost var l := start;
    var i := 0;
    assert LoopAfter(s.cfg, p, start, xs[..0]) == start;
    hide LoopAfter, Exchanged, Cycled;
    while i < |xs| && ending.Looping?
      invariant i <= |xs| && s.Valid()
      invariant l == LoopAfter(s.cfg, p, start, xs[..i])
      invariant l == Loop(s.Current(), tracker, driver.staged, driver.wire, cycles, ending)
      decreases |xs| - i
    {
      var x := xs[i];
      ghost var before := l;
      OneMoreIteration(s.cfg, p, start, xs, i);
      l := LoopAfter(s.cfg, p, start, xs[..i + 1]);
      if x.shutdown {
        ending := Shutdown;
      } else {
        tracker, ending := ExchangePhase(s, driver, p, x.exchange, tracker, before);
        if ending.Looping? {
          cycles, ending := CyclePhase(s, p, x, cycles, Exchanged(s.cfg, p, before, x.exchange));
        }
      }
      i := i + 1;
    }
    EndedEarly(s.cfg, p, start, xs, i);
    if !ending.Looping? {
      s.Stop();
    }
  }

  lemma OneMoreIteration(cfg: Config, p: Policy, l: Loop, xs: seq<Tick>, i: nat)
    requires i < |xs| && LoopAfter(cfg, p, l, xs[..i]).ending.Looping?
    ensures var before, x := LoopAfter(cfg, p, l, xs[..i]), xs[i];
            LoopAfter(cfg, p, l, xs[..i + 1]) ==
              if x.shutdown then before.(ending := Shutdown)
              else
                var e := Exchanged(cfg, p, before, x.exchange);
                if e.ending.Looping? then Cycled(cfg, p, e, x) else e
  {
    assert xs[..i + 1][..i] == xs[..i];
    hide Exchanged, Cycled;
  }

  lemma {:induction false} EndedEarly(cfg: Config, p: Policy, l: Loop, xs: seq<Tick>, i: nat)
    requires i <= |xs| && (i == |xs| || !LoopAfter(cfg, p, l, xs[..i]).ending.Looping?)
    ensures LoopAfter(cfg, p, l, xs) == LoopAfter(cfg, p, l, xs[..i])
    decreases |xs| - i
  {
    assert xs[..|xs|] == xs;
    if i < |xs| {
      assert xs[..i + 1][..i] == xs[..i];
      EndedEarly(cfg, p, l, xs, i + 1);
    }
  }
}
