/** The cyclic scheduler: start-up, scan cycles, faults, and the outputs that are safe after them. */
module Scheduler {
  import opened Wrappers
  import opened RuntimeState
  import opened IoImage
  import opened FaultRecorder
  import opened Metrics

  datatype OverrunPolicy = FaultOnOverrun | WarnOnOverrun | IgnoreOverrun

  datatype SafeOutputPolicy = AllOff | HoldLast | UserDefined(digital: seq<nat>, analog: seq<int>)

  datatype Config = Config(period: nat, maxOverrun: nat, onOverrun: OverrunPolicy, safeOutputs: SafeOutputPolicy)

  /** What the environment contributes to a cycle: whether the watchdog has triggered, what the logic engine
      returns (none on an error), and the measured times. */
  datatype Cycle = Cycle(watchdogTriggered: bool, step: Option<ProcessData>, execution: nat, now: nat, later: nat)

  /** The scheduler's state as a value. */
  datatype Sched = Sched(
    machine: Machine, inputs: DoubleBuffer, outputs: DoubleBuffer, last: Outputs, cycles: nat, deadline: Option<nat>,
    log: seq<FaultFrame>, frozen: bool, durations: seq<nat>)

  const FRESH := Sched(Machine(Boot, None, 0), EMPTY_BUFFER, EMPTY_BUFFER, ALL_OFF, 0, None, [], false, [])

  // ---- What the operations do ------------------------------------------------------

  /** Analog values cut off or padded with zeros to the number of channels. */
  function Channels(analog: seq<int>): (r: seq<int>)
    ensures |r| == CHANNELS
  {
    seq(CHANNELS, (i: nat) => if i < |analog| then analog[i] else 0)
  }

  /** The outputs a policy prescribes when `last` were the last outputs of the logic. */
  function SafeValue(p: SafeOutputPolicy, last: Outputs): Outputs
  {
    match p
    case AllOff => ALL_OFF
    case HoldLast => last
    case UserDefined(digital, analog) => Outputs(if digital == [] then 0 else digital[0], Channels(analog))
  }

  /** What the policy is for: zeros on every channel, the last outputs of the logic, or the given values, of which
      missing ones are zero and surplus ones are dropped. */
  ghost predicate SafeFor(p: SafeOutputPolicy, digital: nat, analog: seq<int>, last: Outputs)
  {
    match p
    case AllOff => digital == 0 && |analog| == 16 && forall i :: 0 <= i < 16 ==> analog[i] == 0
    case HoldLast => digital == last.digital && analog == last.analog
    case UserDefined(ds, vs) =>
      && digital == (if |ds| > 0 then ds[0] else 0) && |analog| == 16
      && forall i :: 0 <= i < 16 ==> analog[i] == if i < |vs| then vs[i] else 0
  }

  lemma SafeValueIsSafe(p: SafeOutputPolicy, last: Outputs)
    ensures SafeFor(p, SafeValue(p, last).digital, SafeValue(p, last).analog, last)
  {}

  function Published(s: Sched): Outputs { OutputFields(s.outputs.front) }

  function MadeSafe(cfg: Config, s: Sched): Sched
  {
    s.(outputs := s.outputs.Write(SetOutputs(SafeValue(cfg.safeOutputs, s.last))))
  }

  function Faulted(cfg: Config, s: Sched): Sched
  {
    MadeSafe(cfg, s.(machine := s.machine.Try(Fault)))
  }

  /** A fault frame is recorded unless the recorder is frozen, and freezes it. */
  function FaultRecorded(s: Sched, reason: FaultReason, now: nat, total: nat): Sched
  {
    if s.frozen then s else s.(log := s.log + [NewFrame(s.cycles, now, total).(reason := reason)], frozen := true)
  }

  function Initialized(s: Sched, engineOk: bool): Sched
  {
    if !CanTransition(s.machine.current, Init) then s
    else
      var s1 := s.(machine := s.machine.To(Init));
      if engineOk then s1.(machine := s1.machine.To(PreOp)) else s1
  }

  function Started(cfg: Config, s: Sched, watchdogOk: bool, now: nat): Sched
  {
    if s.machine.current != PreOp || !watchdogOk then s
    else s.(machine := s.machine.To(Run), deadline := Some(now + cfg.period))
  }

  /** The logic ran: its outputs are published, remembered and recorded. */
  function LogicRan(s: Sched, outputs: ProcessData, execution: nat, now: nat): Sched
  {
    var frame := NewFrame(s.cycles + 1, now, execution).(inputs := s.inputs.front, outputs := outputs);
    s.(outputs := s.outputs.Write(SetOutputs(OutputFields(outputs))), last := OutputFields(outputs),
       cycles := s.cycles + 1, log := if s.frozen then s.log else s.log + [frame], durations := s.durations + [execution])
  }

  predicate CriticalOverrun(cfg: Config, execution: nat)
  {
    execution > cfg.period && execution - cfg.period > cfg.maxOverrun && cfg.onOverrun == FaultOnOverrun
  }

  /** What makes a cycle fault: a triggered watchdog, failing logic, or, where the policy is to fault, an execution
      longer than a period and the tolerated overrun. */
  predicate Fails(cfg: Config, c: Cycle)
  {
    c.watchdogTriggered || c.step.None? || (cfg.onOverrun.FaultOnOverrun? && c.execution > cfg.period + cfg.maxOverrun)
  }

  predicate CycleSucceeds(cfg: Config, s: Sched, c: Cycle)
  {
    s.machine.current == Run && !Fails(cfg, c)
  }

  /** The end of a cycle whose logic ran: the overrun policy, or the next deadline one period on. */
  function Concluded(cfg: Config, s: Sched, c: Cycle): Sched
  {
    if CriticalOverrun(cfg, c.execution) then Faulted(cfg, FaultRecorded(s, CycleOverrun, c.later, c.execution))
    else s.(deadline := if s.deadline.None? then None else Some(s.deadline.value + cfg.period))
  }

  function CycleRun(cfg: Config, s: Sched, c: Cycle): Sched
  {
    if s.machine.current != Run then s
    else if c.watchdogTriggered then Faulted(cfg, FaultRecorded(s, WatchdogTimeout, c.now, 0))
    else if c.step.None? then Faulted(cfg, FaultRecorded(s, LogicError, c.now, c.execution))
    else Concluded(cfg, LogicRan(s, c.step.value, c.execution, c.now), c)
  }

  function Stopped(cfg: Config, s: Sched): Sched
  {
    MadeSafe(cfg, if s.machine.current == Run then s.(machine := s.machine.To(SafeStop)) else s)
  }

  function InputsWritten(s: Sched, digital: nat, analog: seq<int>): Sched
  {
    s.(inputs := s.inputs.Write(SetInputs(digital, analog)))
  }

  // ---- Whole runs --------------------------------------------------------------------

  /** The calls the runtime can make, in any order, with any results of the engine and the watchdog. */
  datatype Event =
    | Initialize(engineOk: bool)
    | Start(watchdogOk: bool, at: nat)
    | RunCycle(cycle: Cycle)
    | Stop
    | EnterFault
    | WriteInputs(digital: nat, analog: seq<int>)

  function Apply(cfg: Config, s: Sched, e: Event): Sched
  {
    match e
    case Initialize(ok) => Initialized(s, ok)
    case Start(ok, at) => Started(cfg, s, ok, at)
    case RunCycle(c) => CycleRun(cfg, s, c)
    case Stop => Stopped(cfg, s)
    case EnterFault => Faulted(cfg, s)
    case WriteInputs(digital, analog) => InputsWritten(s, digital, analog)
  }

  function AfterEvents(cfg: Config, s: Sched, es: seq<Event>): Sched
  {
    if es == [] then s else Apply(cfg, AfterEvents(cfg, s, es[..|es| - 1]), es[|es| - 1])
  }

  /** The event lets the logic engine run successfully. */
  predicate StepsEngine(s: Sched, e: Event)
  {
    e.RunCycle? && s.machine.current == Run && !e.cycle.watchdogTriggered && e.cycle.step.Some?
  }

  predicate Halted(s: Sched) { s.machine.current in {Fault, SafeStop} }

  /** The record of cycles: in order, with at most one fault, which is the last. */
  ghost predicate LogInv(s: Sched)
  {
    && (forall i, j :: 0 <= i < j < |s.log| ==> s.log[i].cycle <= s.log[j].cycle)
    && (forall i :: 0 <= i < |s.log| ==> s.log[i].cycle <= s.cycles)
    && (forall i :: 0 <= i < |s.log| ==> (s.log[i].reason != NoFault <==> s.frozen && i == |s.log| - 1))
    && (s.frozen ==> s.log != [])
    && s.cycles == |s.durations|
  }

  /** What holds in every reachable state. */
  ghost predicate SchedInv(cfg: Config, s: Sched)
  {
    LogInv(s) && (Halted(s) ==> Published(s) == SafeValue(cfg.safeOutputs, s.last))
  }

  lemma FaultRecordedKeepsLog(s: Sched, reason: FaultReason, now: nat, total: nat)
    requires LogInv(s) && reason != NoFault
    ensures LogInv(FaultRecorded(s, reason, now, total))
  {}

  lemma LogicRanKeepsLog(s: Sched, outputs: ProcessData, execution: nat, now: nat)
    requires LogInv(s)
    ensures LogInv(LogicRan(s, outputs, execution, now))
  {}

  lemma FaultedKeepsLog(cfg: Config, s: Sched)
    requires LogInv(s)
    ensures LogInv(Faulted(cfg, s))
  {}

  lemma ConcludedKeepsLog(cfg: Config, s: Sched, c: Cycle)
    requires LogInv(s)
    ensures LogInv(Concluded(cfg, s, c))
  {
    FaultRecordedKeepsLog(s, CycleOverrun, c.later, c.execution);
    FaultedKeepsLog(cfg, FaultRecorded(s, CycleOverrun, c.later, c.execution));
    hide FaultRecorded, Faulted;
  }

  lemma CycleKeepsLog(cfg: Config, s: Sched, c: Cycle)
    requires LogInv(s)
    ensures LogInv(CycleRun(cfg, s, c))
  {
    hide FaultRecorded, Faulted, LogicRan, Concluded, LogInv;
    FaultRecordedKeepsLog(s, WatchdogTimeout, c.now, 0);
    FaultedKeepsLog(cfg, FaultRecorded(s, WatchdogTimeout, c.now, 0));
    FaultRecordedKeepsLog(s, LogicError, c.now, c.execution);
    FaultedKeepsLog(cfg, FaultRecorded(s, LogicError, c.now, c.execution));
    if c.step.Some? {
      LogicRanKeepsLog(s, c.step.value, c.execution, c.now);
      ConcludedKeepsLog(cfg, LogicRan(s, c.step.value, c.execution, c.now), c);
    }
  }

  lemma EventKeepsInv(cfg: Config, s: Sched, e: Event)
    requires SchedInv(cfg, s)
    ensures SchedInv(cfg, Apply(cfg, s, e))
  {
    if e.RunCycle? {
      CycleKeepsLog(cfg, s, e.cycle);
    }
    hide SafeValue, LogInv;
    assert !e.RunCycle? ==> LogInv(Apply(cfg, s, e)) by {
      LogDepends(s, Apply(cfg, s, e));
    }
  }

  lemma LogDepends(s: Sched, t: Sched)
    ensures s.log == t.log && s.cycles == t.cycles && s.frozen == t.frozen && s.durations == t.durations ==> LogInv(s) == LogInv(t)
  {}

  lemma {:induction false} RunKeepsInv(cfg: Config, es: seq<Event>)
    ensures SchedInv(cfg, AfterEvents(cfg, FRESH, es))
  {
    if es != [] {
      RunKeepsInv(cfg, es[..|es| - 1]);
      EventKeepsInv(cfg, AfterEvents(cfg, FRESH, es[..|es| - 1]), es[|es| - 1]);
    }
  }

  /** An event that does not run the logic leaves safe outputs safe. */
  lemma EventKeepsSafe(cfg: Config, s: Sched, e: Event)
    requires Published(s) == SafeValue(cfg.safeOutputs, s.last) && !StepsEngine(s, e)
    ensures var s' := Apply(cfg, s, e);
            Published(s') == SafeValue(cfg.safeOutputs, s'.last) && s'.last == s.last
  {
    hide SafeValue;
  }

  lemma {:induction false} SafeUntilLogicRuns(cfg: Config, s: Sched, es: seq<Event>)
    requires Published(s) == SafeValue(cfg.safeOutputs, s.last)
    requires forall i :: 0 <= i < |es| ==> !StepsEngine(AfterEvents(cfg, s, es[..i]), es[i])
    ensures var s' := AfterEvents(cfg, s, es);
            Published(s') == SafeValue(cfg.safeOutputs, s.last) && s'.last == s.last
  {
    hide SafeValue, StepsEngine, Apply;
    if es != [] {
      var n := |es| - 1;
      forall i | 0 <= i < n ensures !StepsEngine(AfterEvents(cfg, s, es[..n][..i]), es[..n][i]) {
        assert es[..n][..i] == es[..i];
      }
      SafeUntilLogicRuns(cfg, s, es[..n]);
      EventKeepsSafe(cfg, AfterEvents(cfg, s, es[..n]), es[n]);
    }
  }

  /** Once a run has entered FAULT or SAFE_STOP, the published outputs are what the policy prescribes for the last
      outputs of the logic, until the logic has run again: through further faults and stops, and through the whole
      of a new start-up. */
  lemma SafeOutputsHold(cfg: Config, es: seq<Event>, more: seq<Event>)
    requires Halted(AfterEvents(cfg, FRESH, es))
    requires forall i :: 0 <= i < |more| ==> !StepsEngine(AfterEvents(cfg, AfterEvents(cfg, FRESH, es), more[..i]), more[i])
    ensures Published(AfterEvents(cfg, AfterEvents(cfg, FRESH, es), more))
         == SafeValue(cfg.safeOutputs, AfterEvents(cfg, FRESH, es).last)
  {
    RunKeepsInv(cfg, es);
    SafeUntilLogicRuns(cfg, AfterEvents(cfg, FRESH, es), more);
  }

  /** The event puts the outputs in their safe state. */
  predicate MakesSafe(cfg: Config, s: Sched, e: Event)
  {
    e.Stop? || e.EnterFault? || (e.RunCycle? && s.machine.current == Run && !CycleSucceeds(cfg, s, e.cycle))
  }

  /** The outputs of the last successful run of the logic. */
  function LastLogic(cfg: Config, es: seq<Event>): Outputs
  {
    if es == [] then ALL_OFF
    else
      var init, e := es[..|es| - 1], es[|es| - 1];
      if StepsEngine(AfterEvents(cfg, FRESH, init), e) then OutputFields(e.cycle.step.value) else LastLogic(cfg, init)
  }

  /** Whether the outputs have been made safe since the logic last ran. */
  function SafeSince(cfg: Config, es: seq<Event>): bool
  {
    if es == [] then false
    else
      var init, e := es[..|es| - 1], es[|es| - 1];
      var s := AfterEvents(cfg, FRESH, init);
      MakesSafe(cfg, s, e) || (!StepsEngine(s, e) && SafeSince(cfg, init))
  }

  lemma EventPublishes(cfg: Config, s: Sched, e: Event)
    ensures var s' := Apply(cfg, s, e);
            && s'.last == (if StepsEngine(s, e) then OutputFields(e.cycle.step.value) else s.last)
            && Published(s') == (if MakesSafe(cfg, s, e) then SafeValue(cfg.safeOutputs, s'.last)
                                 else if StepsEngine(s, e) then s'.last else Published(s))
  {
    hide SafeValue;
  }

  /** What is published, in every run: the outputs of the last successful run of the logic, or the value the policy
      derives from them if the outputs were made safe since. */
  lemma {:induction false} PublishedOutputs(cfg: Config, es: seq<Event>)
    ensures var s := AfterEvents(cfg, FRESH, es);
            && s.last == LastLogic(cfg, es)
            && Published(s) == if SafeSince(cfg, es) then SafeValue(cfg.safeOutputs, LastLogic(cfg, es)) else LastLogic(cfg, es)
  {
    if es != [] {
      var init := es[..|es| - 1];
      PublishedOutputs(cfg, init);
      EventPublishes(cfg, AfterEvents(cfg, FRESH, init), es[|es| - 1]);
      hide Apply, StepsEngine, MakesSafe, SafeValue, Published;
    }
  }

  function AfterCycles(cfg: Config, s: Sched, cs: seq<Cycle>): Sched
  {
    if cs == [] then s else CycleRun(cfg, AfterCycles(cfg, s, cs[..|cs| - 1]), cs[|cs| - 1])
  }

  /** Deadlines do not drift: after any number of successful cycles, however long each took, the deadline is that
      many periods later. */
  lemma {:induction false} DeadlinesDoNotDrift(cfg: Config, s: Sched, cs: seq<Cycle>)
    requires s.machine.current == Run && s.deadline.Some?
    requires forall i :: 0 <= i < |cs| ==> CycleSucceeds(cfg, AfterCycles(cfg, s, cs[..i]), cs[i])
    ensures var s' := AfterCycles(cfg, s, cs);
            s'.deadline == Some(PeriodsLater(s.deadline.value, |cs|, cfg.period)) && s'.cycles == s.cycles + |cs|
  {
    hide *;
    LastCycle(cfg, s, cs);
    OneMorePeriod(s.deadline.value, if cs == [] then 0 else |cs| - 1, cfg.period);
    if cs != [] {
      var n := |cs| - 1;
      EarlierSucceed(cfg, s, cs, n);
      DeadlinesDoNotDrift(cfg, s, cs[..n]);
      OneMoreCycle(cfg, AfterCycles(cfg, s, cs[..n]), cs[n]);
    }
  }

  lemma LastCycle(cfg: Config, s: Sched, cs: seq<Cycle>)
    ensures var n := |cs| - 1;
            AfterCycles(cfg, s, cs) == if cs == [] then s else CycleRun(cfg, AfterCycles(cfg, s, cs[..n]), cs[n])
  {
    hide CycleRun;
  }

  lemma EarlierSucceed(cfg: Config, s: Sched, cs: seq<Cycle>, n: nat)
    requires n <= |cs| && forall i :: 0 <= i < |cs| ==> CycleSucceeds(cfg, AfterCycles(cfg, s, cs[..i]), cs[i])
    ensures forall i :: 0 <= i < n ==> CycleSucceeds(cfg, AfterCycles(cfg, s, cs[..n][..i]), cs[..n][i])
  {
    hide *;
    forall i | 0 <= i < n
      ensures CycleSucceeds(cfg, AfterCycles(cfg, s, cs[..n][..i]), cs[..n][i])
    {
      assert cs[..n][..i] == cs[..i];
    }
  }

  function PeriodsLater(time: nat, n: nat, period: nat): nat { time + n * period }

  lemma OneMorePeriod(time: nat, n: nat, period: nat)
    ensures PeriodsLater(time, 0, period) == time
    ensures PeriodsLater(time, n + 1, period) == PeriodsLater(time, n, period) + period
  {}

  lemma OneMoreCycle(cfg: Config, s: Sched, c: Cycle)
    requires CycleSucceeds(cfg, s, c) && s.deadline.Some?
    ensures var s' := CycleRun(cfg, s, c);
            s'.deadline == Some(s.deadline.value + cfg.period) && s'.cycles == s.cycles + 1
  {}

  /** No operation of the scheduler leaves SAFE_STOP. */
  lemma {:induction false} SafeStopIsFinal(cfg: Config, s: Sched, es: seq<Event>)
    requires s.machine.current == SafeStop
    ensures AfterEvents(cfg, s, es).machine == s.machine
  {
    if es != [] {
      SafeStopIsFinal(cfg, s, es[..|es| - 1]);
    }
  }

  /** The first recorded fault and what led to it stay recorded: nothing is recorded after it. */
  lemma {:induction false} FirstFaultIsKept(cfg: Config, s: Sched, es: seq<Event>)
    requires s.frozen
    ensures AfterEvents(cfg, s, es).log == s.log && AfterEvents(cfg, s, es).frozen
  {
    if es != [] {
      FirstFaultIsKept(cfg, s, es[..|es| - 1]);
    }
  }

  /** Recorded cycle numbers never decrease, and only the last recorded frame can be a fault. */
  lemma RecordedCyclesInOrder(cfg: Config, es: seq<Event>)
    ensures var s := AfterEvents(cfg, FRESH, es);
            && (forall i, j :: 0 <= i < j < |s.log| ==> s.log[i].cycle <= s.log[j].cycle)
            && (forall i :: 0 <= i < |s.log| ==> (s.log[i].reason != NoFault <==> s.frozen && i == |s.log| - 1))
            && (forall i :: 0 <= i < |s.log| ==> s.log[i].cycle <= s.cycles)
  {
    RunKeepsInv(cfg, es);
  }

  // ---- The scheduler -------------------------------------------------------------------

  class IoBuffers {
    const inputs: SeqlockBuffer
    const outputs: SeqlockBuffer

    constructor ()
      ensures fresh(inputs) && fresh(outputs) && inputs != outputs && inputs.Quiet() && outputs.Quiet()
      ensures inputs.Current() == EMPTY_BUFFER && outputs.Current() == EMPTY_BUFFER
    {
      inputs := new SeqlockBuffer();
      outputs := new SeqlockBuffer();
    }
  }

  class Scheduler {
    const io: IoBuffers
    const state: StateMachine
    const metrics: CycleMetrics
    const recorder: FaultRecorder
    const cfg: Config
    var lastOutputs: Outputs
    var cycleCount: nat
    var nextDeadline: Option<nat>

    ghost function Repr(): set<object>
    {
      {this, io.inputs, io.outputs, state, metrics, metrics.samples, recorder, recorder.frames}
    }

    ghost predicate Valid()
      reads Repr()
    {
      io.inputs != io.outputs && io.inputs.Quiet() && io.outputs.Quiet() && metrics.Valid() && recorder.Valid()
    }

    ghost function Current(): Sched
      reads Repr()
    {
      Sched(state.Current(), io.inputs.Current(), io.outputs.Current(), lastOutputs, cycleCount, nextDeadline,
            recorder.log, recorder.frozen, metrics.log)
    }

    constructor (cfg: Config, histogramSize: nat, faultFrames: Option<nat>)
      requires faultFrames.Some? ==> faultFrames.value < USIZE_MAX
      ensures Valid() && Current() == FRESH && this.cfg == cfg && fresh(Repr())
    {
      io := new IoBuffers();
      state := new StateMachine();
      metrics := new CycleMetrics(histogramSize, cfg.period);
      recorder := new FaultRecorder(if faultFrames.Some? then faultFrames.value else 64);
      this.cfg := cfg;
      lastOutputs, cycleCount, nextDeadline := ALL_OFF, 0, None;
    }

    method Initialize(engineOk: bool) returns (ok: bool)
      requires Valid()
      modifies Repr()
      ensures Valid() && Current() == Initialized(old(Current()), engineOk)
      ensures ok == (old(Current()).machine.current in {Boot, Fault} && engineOk)
    {
      ok := state.Transition(Init);
      if !ok { return; }
      if !engineOk { return false; }
      ok := state.Transition(PreOp);
    }

    method Start(watchdogOk: bool, now: nat) returns (ok: bool)
      requires Valid()
      modifies Repr()
      ensures Valid() && Current() == Started(cfg, old(Current()), watchdogOk, now)
      ensures ok == (old(Current()).machine.current == PreOp && watchdogOk)
    {
      if state.current != PreOp { return false; }
      if !watchdogOk { return false; }
      ok := state.Transition(Run);
      nextDeadline := Some(now + cfg.period);
    }

    /** The fieldbus side of the process image. */
    method WriteInputs(digital: nat, analog: seq<int>)
      requires Valid()
      modifies io.inputs
      ensures Valid() && Current() == InputsWritten(old(Current()), digital, analog)
    {
      io.inputs.Write(SetInputs(digital, analog));
    }

    method SetSafeOutputs()
      requires Valid()
      modifies io.outputs
      ensures Valid() && Current() == MadeSafe(cfg, old(Current()))
      ensures SafeFor(cfg.safeOutputs, Current().outputs.front.digitalOutputs, Current().outputs.front.analogOutputs,
                      old(lastOutputs))
    {
      match cfg.safeOutputs
      case AllOff =>
        io.outputs.Write(SetOutputs(ALL_OFF));
      case HoldLast =>
        io.outputs.Write(SetOutputs(lastOutputs));
      case UserDefined(digital, analog) =>
        var safeDigital := 0;
        if |digital| > 0 {
          safeDigital := digital[0];
        }
        var safeAnalog := ZeroChannels();
        var n := if |analog| < CHANNELS then |analog| else CHANNELS;
        for i := 0 to n
          invariant |safeAnalog| == CHANNELS
          invariant forall k :: 0 <= k < CHANNELS ==> safeAnalog[k] == if k < i then analog[k] else 0
        {
          safeAnalog := safeAnalog[i := analog[i]];
        }
        assert safeAnalog == Channels(analog);
        io.outputs.Write(SetOutputs(Outputs(safeDigital, safeAnalog)));
    }

    method EnterFault()
      requires Valid()
      modifies io.outputs, state
      ensures Valid() && Current() == Faulted(cfg, old(Current()))
      ensures SafeFor(cfg.safeOutputs, Current().outputs.front.digitalOutputs, Current().outputs.front.analogOutputs,
                      old(lastOutputs))
    {
      state.EnterFault();
      SetSafeOutputs();
    }

    method Stop()
      requires Valid()
      modifies io.outputs, state
      ensures Valid() && Current() == Stopped(cfg, old(Current()))
      ensures SafeFor(cfg.safeOutputs, Current().outputs.front.digitalOutputs, Current().outputs.front.analogOutputs,
                      old(lastOutputs))
    {
      if state.current == Run {
        var _ := state.Transition(SafeStop);
      }
      SetSafeOutputs();
    }

    method RecordFault(reason: FaultReason, now: nat, total: nat)
      requires Valid()
      modifies recorder, recorder.frames
      ensures Valid() && Current() == FaultRecorded(old(Current()), reason, now, total)
    {
      recorder.RecordFault(cycleCount, reason, now, total);
    }

    method Publish(outputs: ProcessData)
      requires Valid()
      modifies this`lastOutputs, this`cycleCount, io.outputs
      ensures Valid()
      ensures var s, o := old(Current()), OutputFields(outputs);
              Current() == s.(outputs := s.outputs.Write(SetOutputs(o)), last := o, cycles := s.cycles + 1)
    {
      io.outputs.Write(SetOutputs(OutputFields(outputs)));
      lastOutputs := OutputFields(outputs);
      cycleCount := cycleCount + 1;
    }

    method RecordCycle(inputs: ProcessData, outputs: ProcessData, execution: nat, now: nat)
      requires Valid()
      modifies recorder, recorder.frames
      ensures Valid()
      ensures var s := old(Current());
              var frame := NewFrame(s.cycles, now, execution).(inputs := inputs, outputs := outputs);
              Current() == s.(log := if s.frozen then s.log else s.log + [frame])
    {
      var slot := recorder.RecordCycle(cycleCount, now, execution);
      if slot.Some? {
        recorder.SetSnapshots(slot.value, inputs, outputs);
      }
    }

    method RecordMetrics(execution: nat)
      requires Valid() && execution < U64
      modifies metrics, metrics.samples
      ensures Valid() && Current() == old(Current()).(durations := old(Current()).durations + [execution])
    {
      metrics.Record(execution);
    }

    /** Publishes and records the results of the logic. */
    method FinishCycle(inputs: ProcessData, outputs: ProcessData, execution: nat, now: nat)
      requires Valid() && execution < U64 && inputs == Current().inputs.front
      modifies this, io.outputs, metrics, metrics.samples, recorder, recorder.frames
      ensures Valid() && Current() == LogicRan(old(Current()), outputs, execution, now)
    {
      hide Current, Valid, SetOutputs, OutputFields;
      Publish(outputs);
      RecordCycle(inputs, outputs, execution, now);
      RecordMetrics(execution);
    }

    method Conclude(c: Cycle) returns (ok: bool)
      requires Valid()
      modifies this`nextDeadline, state, io.outputs, recorder, recorder.frames
      ensures Valid() && Current() == Concluded(cfg, old(Current()), c) && ok == !CriticalOverrun(cfg, c.execution)
    {
      hide Faulted, FaultRecorded;
      if c.execution > cfg.period {
        var overrun := c.execution - cfg.period;
        if overrun > cfg.maxOverrun && cfg.onOverrun == FaultOnOverrun {
          RecordFault(CycleOverrun, c.later, c.execution);
          EnterFault();
          return false;
        }
      }
      if nextDeadline.Some? {
        nextDeadline := Some(nextDeadline.value + cfg.period);
      }
      ok := true;
    }

    method RunCycle(c: Cycle) returns (ok: bool)
      requires Valid() && c.execution < U64
      modifies Repr()
      ensures Valid() && Current() == CycleRun(cfg, old(Current()), c) && ok == CycleSucceeds(cfg, old(Current()), c)
    {
      hide Faulted, FaultRecorded, LogicRan, Concluded;
      if state.current != Run { return false; }
      if c.watchdogTriggered {
        RecordFault(WatchdogTimeout, c.now, 0);
        EnterFault();
        return false;
      }
      var inputs := io.inputs.Read();
      if c.step.None? {
        RecordFault(LogicError, c.now, c.execution);
        EnterFault();
        return false;
      }
      FinishCycle(inputs, c.step.value, c.execution, c.now);
      ok := Conclude(c);
    }
  }
}
