/** The states of the runtime and the transitions allowed between them. */
module RuntimeState {
  import opened Wrappers

  datatype RuntimeState = Boot | Init | PreOp | Run | Fault | SafeStop

  predicate CanTransition(from: RuntimeState, to: RuntimeState)
  {
    match (from, to)
    case (Boot, Init) => true
    case (Init, PreOp) => true
    case (PreOp, Run) => true
    case (Boot, Fault) => true
    case (Init, Fault) => true
    case (PreOp, Fault) => true
    case (Run, Fault) => true
    case (Fault, SafeStop) => true
    case (Run, SafeStop) => true
    case (Fault, Init) => true
    case (SafeStop, Boot) => true
    case (PreOp, SafeStop) => true
    case _ => false
  }

  /** The life cycle: forward from BOOT to RUN, to FAULT from all of these, to SAFE_STOP from PRE_OP, RUN and FAULT, back
      from FAULT to INIT, and from SAFE_STOP to BOOT. */
  function Successors(s: RuntimeState): set<RuntimeState>
  {
    match s
    case Boot => {Init, Fault}
    case Init => {PreOp, Fault}
    case PreOp => {Run, Fault, SafeStop}
    case Run => {Fault, SafeStop}
    case Fault => {Init, SafeStop}
    case SafeStop => {Boot}
  }

  lemma AllowedIff(from: RuntimeState, to: RuntimeState)
    ensures CanTransition(from, to) <==> to in Successors(from)
  {}

  /** The current state and the history kept with it. */
  datatype Machine = Machine(current: RuntimeState, previous: Option<RuntimeState>, count: nat)
  {
    function To(target: RuntimeState): Machine { Machine(target, Some(current), count + 1) }

    /** A transition that is not allowed changes nothing. */
    function Try(target: RuntimeState): Machine { if CanTransition(current, target) then To(target) else this }
  }

  class StateMachine {
    var current: RuntimeState
    var previous: Option<RuntimeState>
    var transitionCount: nat

    function Current(): Machine
      reads this
    {
      Machine(current, previous, transitionCount)
    }

    constructor ()
      ensures Current() == Machine(Boot, None, 0)
    {
      current, previous, transitionCount := Boot, None, 0;
    }

    method Transition(target: RuntimeState) returns (ok: bool)
      modifies this
      ensures ok == (target in Successors(old(current))) && Current() == old(Current()).Try(target)
      ensures current == (if ok then target else old(current)) && transitionCount == old(transitionCount) + if ok then 1 else 0
    {
      AllowedIff(current, target);
      ok := CanTransition(current, target);
      if ok {
        previous := Some(current);
        current := target;
        transitionCount := transitionCount + 1;
      }
    }

    method EnterFault()
      modifies this
      ensures Current() == old(Current()).Try(Fault)
      ensures current == if old(current) == SafeStop then SafeStop else Fault
    {
      if CanTransition(current, Fault) {
        previous := Some(current);
        current := Fault;
        transitionCount := transitionCount + 1;
      }
    }
  }
}
