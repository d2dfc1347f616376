/** What the scheduler's operations come to, in terms of states, outputs, deadlines and records alone. */
module SchedulerLaws {
  import opened Wrappers
  import opened RuntimeState
  import opened IoImage
  import opened FaultRecorder
  import opened Scheduler

  // ---- One scan cycle ------------------------------------------------------------------

  /** The logic runs to its end, with outputs to publish. */
  predicate Computes(c: Cycle) { !c.watchdogTriggered && c.step.Some? }

  /** A cycle in RUN ends in FAULT exactly if it fails; otherwise the deadline moves by exactly one period. */
  lemma CycleState(cfg: Config, s: Sched, c: Cycle)
    requires s.machine.current == Run
    ensures var t := CycleRun(cfg, s, c);
            && t.machine == (if Fails(cfg, c) then Machine(Fault, Some(Run), s.machine.count + 1) else s.machine)
            && t.deadline == (if Fails(cfg, c) || s.deadline.None? then s.deadline else Some(s.deadline.value + cfg.period))
            && t.cycles == s.cycles + (if Computes(c) then 1 else 0)
            && t.durations == s.durations + (if Computes(c) then [c.execution] else [])
            && t.inputs == s.inputs
  {
    hide SafeValue;
  }

  /** It publishes the outputs of the logic, or if it fails what the policy derives from the last ones, those of this
      cycle included. */
  lemma CycleOutputs(cfg: Config, s: Sched, c: Cycle)
    requires s.machine.current == Run
    ensures var t := CycleRun(cfg, s, c);
            var o := t.outputs.front;
            && t.last == (if Computes(c) then Outputs(c.step.value.digitalOutputs, c.step.value.analogOutputs) else s.last)
            && if Fails(cfg, c) then SafeFor(cfg.safeOutputs, o.digitalOutputs, o.analogOutputs, t.last)
               else o.digitalOutputs == c.step.value.digitalOutputs && o.analogOutputs == c.step.value.analogOutputs
  {
    hide Channels;
    SafeValueIsSafe(cfg.safeOutputs, CycleRun(cfg, s, c).last);
  }

  /** The frame of a cycle whose logic ran: with the inputs it read and the outputs it computed. */
  function CycleFrame(s: Sched, c: Cycle): FaultFrame
    requires c.step.Some?
  {
    FaultFrame(s.cycles + 1, c.now, s.inputs.front, c.step.value, c.execution, NoFault, true)
  }

  /** The frame of a failing cycle, with its reason and without snapshots. */
  function FailureFrame(s: Sched, c: Cycle): FaultFrame
  {
    if c.watchdogTriggered then FaultFrame(s.cycles, c.now, NO_DATA, NO_DATA, 0, WatchdogTimeout, true)
    else if c.step.None? then FaultFrame(s.cycles, c.now, NO_DATA, NO_DATA, c.execution, LogicError, true)
    else FaultFrame(s.cycles + 1, c.later, NO_DATA, NO_DATA, c.execution, CycleOverrun, true)
  }

  /** Unless the recorder is frozen, a cycle whose logic ran is recorded, and so is a failure, which freezes it. */
  lemma CycleRecord(cfg: Config, s: Sched, c: Cycle)
    requires s.machine.current == Run
    ensures var t := CycleRun(cfg, s, c);
            && t.frozen == (s.frozen || Fails(cfg, c))
            && t.log == if s.frozen then s.log
                        else s.log + (if Computes(c) then [CycleFrame(s, c)] else [])
                                   + (if Fails(cfg, c) then [FailureFrame(s, c)] else [])
  {
    hide SafeValue;
  }

  /** Outside RUN a cycle does nothing. */
  lemma NoCycleOutsideRun(cfg: Config, s: Sched, c: Cycle)
    requires s.machine.current != Run
    ensures CycleRun(cfg, s, c) == s
  {}

  // ---- States over whole runs --------------------------------------------------------------

  /** The state a run leads to. */
  function StateAfter(cfg: Config, es: seq<Event>): RuntimeState
  {
    if es == [] then Boot
    else
      var s := StateAfter(cfg, es[..|es| - 1]);
      match es[|es| - 1]
      case Initialize(engineOk) => if s in {Boot, Fault} then (if engineOk then PreOp else Init) else s
      case Start(watchdogOk, _) => if s == PreOp && watchdogOk then Run else s
      case RunCycle(c) => if s == Run && Fails(cfg, c) then Fault else s
      case Stop => if s == Run then SafeStop else s
      case EnterFault => if s == SafeStop then SafeStop else Fault
      case WriteInputs(_, _) => s
  }

  lemma {:induction false} StatesOfRuns(cfg: Config, es: seq<Event>)
    ensures AfterEvents(cfg, FRESH, es).machine.current == StateAfter(cfg, es)
  {
    if es != [] {
      var init, e := es[..|es| - 1], es[|es| - 1];
      StatesOfRuns(cfg, init);
      var s := AfterEvents(cfg, FRESH, init);
      if e.RunCycle? {
        if s.machine.current == Run { CycleState(cfg, s, e.cycle); } else { NoCycleOutsideRun(cfg, s, e.cycle); }
      }
      hide SafeValue, CycleRun, Fails;
    }
  }

  /** From BOOT, and again from FAULT, initialisation and start lead to RUN, with the outputs as they were and the first
      deadline one period after the start. */
  lemma StartsUp(cfg: Config, s: Sched, at: nat)
    requires s.machine.current in {Boot, Fault}
    ensures var r := AfterEvents(cfg, s, [Initialize(true), Start(true, at)]);
            r.machine.current == Run && r.deadline == Some(at + cfg.period) && r.outputs == s.outputs
  {
    var es := [Initialize(true), Start(true, at)];
    assert es[..1] == [Initialize(true)] && es[..1][..0] == [];
    assert AfterEvents(cfg, s, es[..1]) == Initialized(s, true);
  }

  // ---- Safe outputs over whole runs ----------------------------------------------------------

  /** The process data of the last successful run of the logic; none before the first. */
  function LastComputed(cfg: Config, es: seq<Event>): Option<ProcessData>
  {
    if es == [] then None
    else
      var init, e := es[..|es| - 1], es[|es| - 1];
      if e.RunCycle? && StateAfter(cfg, init) == Run && Computes(e.cycle) then e.cycle.step else LastComputed(cfg, init)
  }

  /** Its outputs; zeros before the first. */
  function LastOutputs(cfg: Config, es: seq<Event>): Outputs
  {
    match LastComputed(cfg, es)
    case Some(d) => Outputs(d.digitalOutputs, d.analogOutputs)
    case None => Outputs(0, seq(16, _ => 0))
  }

  lemma {:induction false} LastIsComputed(cfg: Config, es: seq<Event>)
    ensures AfterEvents(cfg, FRESH, es).last == LastOutputs(cfg, es)
  {
    if es == [] {
      assert ZeroChannels() == seq(16, _ => 0);
    } else {
      var init, e := es[..|es| - 1], es[|es| - 1];
      LastIsComputed(cfg, init);
      StatesOfRuns(cfg, init);
      EventPublishes(cfg, AfterEvents(cfg, FRESH, init), e);
      hide Apply, SafeValue, StateAfter, Published;
    }
  }

  /** In every run, once FAULT or SAFE_STOP has been entered, the outputs are safe in the sense of the policy, with
      respect to the last outputs of the logic, until the logic has run again. */
  lemma HaltedOutputsAreSafe(cfg: Config, es: seq<Event>, more: seq<Event>)
    requires StateAfter(cfg, es) in {Fault, SafeStop}
    requires forall i :: 0 <= i < |more| ==> !StepsEngine(AfterEvents(cfg, AfterEvents(cfg, FRESH, es), more[..i]), more[i])
    ensures var o := AfterEvents(cfg, AfterEvents(cfg, FRESH, es), more).outputs.front;
            SafeFor(cfg.safeOutputs, o.digitalOutputs, o.analogOutputs, LastOutputs(cfg, es))
  {
    StatesOfRuns(cfg, es);
    LastIsComputed(cfg, es);
    SafeOutputsHold(cfg, es, more);
    SafeValueIsSafe(cfg.safeOutputs, LastOutputs(cfg, es));
    hide SafeValue, AfterEvents;
  }

  // ---- Inputs over whole runs ----------------------------------------------------------------

  /** The inputs last written from the bus; none before the first. */
  function LastWritten(es: seq<Event>): Option<Event>
  {
    if es == [] then None
    else if es[|es| - 1].WriteInputs? then Some(es[|es| - 1])
    else LastWritten(es[..|es| - 1])
  }

  /** What the logic reads is what was written last, zeros before the first write. */
  lemma {:induction false} InputsAreLastWritten(cfg: Config, es: seq<Event>)
    ensures var d := AfterEvents(cfg, FRESH, es).inputs.front;
            match LastWritten(es)
            case Some(w) => w.WriteInputs? && d.digitalInputs == w.digital && d.analogInputs == w.analog
            case None => d.digitalInputs == 0 && d.analogInputs == seq(16, _ => 0)
  {
    if es == [] {
      assert ZeroChannels() == seq(16, _ => 0);
    } else {
      InputsAreLastWritten(cfg, es[..|es| - 1]);
      hide SafeValue;
    }
  }
}
