/** A small-step machine for the flat IR: the operational semantics of structured control
    instructions, numeric instructions and linear memory of the WebAssembly Core
    Specification 1.0 (sections 4.4.1, 4.4.4 and 4.4.5), with every block typed empty. */
module WasmMachine {
  import opened Words
  import opened Ir

  /** A branch target: where execution continues and the operand-stack height to unwind to. */
  datatype Label = Label(continuation: nat, height: nat)

  datatype State =
    | Running(pc: nat, stack: seq<I32>, labels: seq<Label>, locals: seq<I32>, mem: Memory)
    | Done(mem: Memory)
    | Trapped(mem: Memory)
    | Stuck

  /** Position of the `End` closing the construct that has `depth` further constructs open inside it. */
  function FindEnd(code: Code, pc: nat, depth: nat): (r: nat)
    decreases |code| - pc
  {
    if pc >= |code| then pc
    else match code[pc]
      case End => if depth == 0 then pc else FindEnd(code, pc + 1, depth - 1)
      case Block | Loop | If => FindEnd(code, pc + 1, depth + 1)
      case _ => FindEnd(code, pc + 1, depth)
  }

  /** Position of the `Else` of the construct, or of its `End` if it has none. */
  function FindElse(code: Code, pc: nat, depth: nat): (r: nat)
    decreases |code| - pc
  {
    if pc >= |code| then pc
    else match code[pc]
      case Else => if depth == 0 then pc else FindElse(code, pc + 1, depth)
      case End => if depth == 0 then pc else FindElse(code, pc + 1, depth - 1)
      case Block | Loop | If => FindElse(code, pc + 1, depth + 1)
      case _ => FindElse(code, pc + 1, depth)
  }

  function Branch(s: State, n: nat): State
    requires s.Running?
  {
    if n < |s.labels| then
      var k := |s.labels| - 1 - n;
      var l := s.labels[k];
      if l.height <= |s.stack|
      then s.(pc := l.continuation, stack := s.stack[..l.height], labels := s.labels[..k])
      else Stuck
    else if n == |s.labels| then Done(s.mem)
    else Stuck
  }

  function Push(s: State, v: I32): State
    requires s.Running?
  {
    s.(pc := s.pc + 1, stack := s.stack + [v])
  }

  function Load(s: State, offset: nat, width: nat): State
    requires s.Running? && width in {1, 2, 4}
  {
    var h := |s.stack|;
    if h < 1 then Stuck else
    var ea := Unsigned(s.stack[h - 1]) + offset;
    if ea + width > |s.mem| then Trapped(s.mem)
    else s.(pc := s.pc + 1, stack := s.stack[..h - 1] + [LoadS(s.mem, ea, width)])
  }

  function StoreTo(s: State, offset: nat, width: nat): State
    requires s.Running? && width in {1, 2, 4}
  {
    var h := |s.stack|;
    if h < 2 then Stuck else
    var ea := Unsigned(s.stack[h - 2]) + offset;
    if ea + width > |s.mem| then Trapped(s.mem)
    else s.(pc := s.pc + 1, stack := s.stack[..h - 2], mem := Words.Store(s.mem, ea, width, s.stack[h - 1]))
  }

  datatype Arith = Yields(v: I32) | Traps | NotBinary

  /** The result of a binary numeric instruction on operands `a`, `b`. */
  function Numeric(i: Instruction, a: I32, b: I32): Arith
  {
    match i
    case I32Add => Yields(Wrap32(a + b))
    case I32Sub => Yields(Wrap32(a - b))
    case I32Mul => Yields(Wrap32(a * b))
    case I32DivS =>
      if b == 0 || (a == I32_MIN && b == -1) then Traps
      else TruncDivFits(a, b); Yields(TruncDiv(a, b))
    case I32RemS =>
      if b == 0 then Traps
      else if b == -1 then Yields(0)
      else TruncDivFits(a, b); Yields(TruncRem(a, b))
    case I32Eq => Yields(Truth(a == b))
    case I32Ne => Yields(Truth(a != b))
    case I32LtS => Yields(Truth(a < b))
    case I32LeS => Yields(Truth(a <= b))
    case I32GtS => Yields(Truth(a > b))
    case I32GeS => Yields(Truth(a >= b))
    case I32And => Yields(Bitwise32(BitAnd, a, b))
    case I32Or => Yields(Bitwise32(BitOr, a, b))
    case I32Xor => Yields(Bitwise32(BitXor, a, b))
    case _ => NotBinary
  }

  /** One machine step. States that are not running stay as they are. */
  function Step(code: Code, s: State): State
  {
    if !s.Running? then s
    else if s.pc >= |code| then Done(s.mem)
    else
      var h := |s.stack|;
      match code[s.pc]
      case I32Const(v) => Push(s, v)
      case I32Load(o) => Load(s, o, 4)
      case I32Load16S(o) => Load(s, o, 2)
      case I32Load8S(o) => Load(s, o, 1)
      case I32Store(o) => StoreTo(s, o, 4)
      case I32Store16(o) => StoreTo(s, o, 2)
      case I32Store8(o) => StoreTo(s, o, 1)
      case LocalGet(i) => if i < |s.locals| then Push(s, s.locals[i]) else Stuck
      case LocalSet(i) =>
        if i < |s.locals| && h >= 1
        then s.(pc := s.pc + 1, stack := s.stack[..h - 1], locals := s.locals[i := s.stack[h - 1]])
        else Stuck
      case I32Eqz =>
        if h < 1 then Stuck
        else s.(pc := s.pc + 1, stack := s.stack[..h - 1] + [Truth(s.stack[h - 1] == 0)])
      case Block => s.(pc := s.pc + 1, labels := s.labels + [Label(FindEnd(code, s.pc + 1, 0) + 1, h)])
      case Loop => s.(pc := s.pc + 1, labels := s.labels + [Label(s.pc, h)])
      case If =>
        if h < 1 then Stuck else
        var below := s.stack[..h - 1];
        var entered := Label(FindEnd(code, s.pc + 1, 0) + 1, h - 1);
        var other := FindElse(code, s.pc + 1, 0);
        if s.stack[h - 1] != 0 then s.(pc := s.pc + 1, stack := below, labels := s.labels + [entered])
        else if other < |code| && code[other] == Else
        then s.(pc := other + 1, stack := below, labels := s.labels + [entered])
        else s.(pc := other + 1, stack := below)
      case Else =>
        var n := |s.labels|;
        if n < 1 then Stuck else s.(pc := s.labels[n - 1].continuation, labels := s.labels[..n - 1])
      case End =>
        var n := |s.labels|;
        if n < 1 then Stuck else s.(pc := s.pc + 1, labels := s.labels[..n - 1])
      case Br(n) => Branch(s, n)
      case BrIf(n) =>
        if h < 1 then Stuck
        else if s.stack[h - 1] != 0 then Branch(s.(stack := s.stack[..h - 1]), n)
        else s.(pc := s.pc + 1, stack := s.stack[..h - 1])
      case Return => Done(s.mem)
      case i =>
        if h < 2 then Stuck
        else match Numeric(i, s.stack[h - 2], s.stack[h - 1])
          case Yields(v) => s.(pc := s.pc + 1, stack := s.stack[..h - 2] + [v])
          case Traps => Trapped(s.mem)
          case NotBinary => Stuck
  }

  function StepN(code: Code, s: State, n: nat): State
    decreases n
  {
    if n == 0 then s else StepN(code, Step(code, s), n - 1)
  }

  lemma {:induction false} StepNAdd(code: Code, s: State, a: nat, b: nat)
    ensures StepN(code, s, a + b) == StepN(code, StepN(code, s, a), b)
    decreases a
  {
    if a > 0 {
      StepNAdd(code, Step(code, s), a - 1, b);
    }
  }

  lemma {:induction false} StepNHalted(code: Code, s: State, n: nat)
    requires !s.Running?
    ensures StepN(code, s, n) == s
  {
    if n > 0 {
      StepNHalted(code, s, n - 1);
    }
  }

  /** The initial state of a call of the step function: no operands, no labels, zeroed locals. */
  function Start(mem: Memory, localCount: nat): State
  {
    Running(0, [], [], seq(localCount, _ => 0), mem)
  }
}
