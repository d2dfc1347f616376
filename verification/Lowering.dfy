/** Lowering of checked statements to the stack IR. The functions say which code is emitted for which
    tree; class IrLowerer emits it instruction by instruction. */
module Lowering {
  import opened Words
  import opened TypedTree
  import opened Ir

  /** The integer cast `as i32` / `as u32`: the low 32 bits. */
  function CastI32(v: int): I32 { Wrap32(v) }

  function CastU32(v: nat): nat { LowBytes(v, 4) }

  function LoadInstr(ty: DataType, offset: nat): Instruction
  {
    match ty
    case Bool | Sint => I32Load8S(offset)
    case Int => I32Load16S(offset)
    case Lint => I64Load(offset)
    case _ => I32Load(offset)
  }

  function StoreInstr(ty: DataType): Instruction
  {
    match ty
    case Bool | Sint => I32Store8(0)
    case Int => I32Store16(0)
    case Lint => I64Store(0)
    case _ => I32Store(0)
  }

  function BinaryInstr(op: BinaryOp, ty: DataType): Instruction
  {
    match op
    case Add => if ty == Lint then I64Add else I32Add
    case Sub => if ty == Lint then I64Sub else I32Sub
    case Mul => if ty == Lint then I64Mul else I32Mul
    case Div => if ty == Lint then I64DivS else I32DivS
    case Mod => I32RemS
    case Eq => I32Eq
    case Ne => I32Ne
    case Lt => I32LtS
    case Le => I32LeS
    case Gt => I32GtS
    case Ge => I32GeS
    case And => I32And
    case Or => I32Or
    case Xor => I32Xor
    case Pow => I32Const(1)
  }

  function LiteralInstr(l: TypedLiteral): Instruction
  {
    match l
    case BoolLiteral(b) => I32Const(if b then 1 else 0)
    case IntegerLiteral(v, bits) => if bits <= 32 then I32Const(CastI32(v)) else I64Const(v)
  }

  function LowerExpr(e: TypedExpr): Code
    decreases e, 1
  {
    match e
    case Literal(l, _) => [LiteralInstr(l)]
    case Variable(_, offset, ty) => [I32Const(0), LoadInstr(ty, CastU32(offset))]
    case ArrayAccess(_, _, _, ty) => LowerElement(e) + [LoadInstr(ty, 0)]
    case Binary(l, op, r, _) => LowerExpr(l) + LowerExpr(r) + [BinaryInstr(op, l.ty)]
    case Unary(Not, x, _) => LowerExpr(x) + [I32Const(1), I32Xor]
    case Unary(Neg, x, _) => LowerExpr(x) + [I32Const(0), I32Sub]
  }

  /** The address of an array element: base plus index times element size. */
  function LowerElement(e: TypedExpr): Code
    requires e.ArrayAccess?
    decreases e, 0
  {
    LowerAddress(e.base) + LowerExpr(e.index) + [I32Const(CastI32(e.elementSize)), I32Mul, I32Add]
  }

  function LowerAddress(e: TypedExpr): Code
    decreases e, 1
  {
    match e
    case Variable(_, offset, _) => [I32Const(CastI32(offset))]
    case ArrayAccess(_, _, _, _) => LowerElement(e)
    case _ => [I32Const(0)]
  }

  /** How many temporaries a statement allocates: one for each CASE. */
  function Temps(s: Statement): nat
    decreases Size(s)
  {
    match s
    case IfStatement(_, t, es, e) => TempsAll(t) + if es == [] then TempsElse(e) else Temps(NextElsif(s))
    case ForStatement(_, _, _, _, _, body) => TempsAll(body)
    case WhileStatement(_, body) => TempsAll(body)
    case RepeatStatement(body, _) => TempsAll(body)
    case CaseStatement(_, bs, e) => 1 + TempsBranches(bs) + TempsElse(e)
    case _ => 0
  }

  function TempsAll(ss: seq<Statement>): nat
    decreases Sizes(ss)
  {
    if ss == [] then 0 else Temps(ss[0]) + TempsAll(ss[1..])
  }

  function TempsElse(e: ElseBranch): nat
    decreases ElseSize(e)
  {
    if e.NoElse? then 0 else TempsAll(e.body)
  }

  /** Branches without values are skipped by the lowering. */
  function TempsBranches(bs: seq<CaseBranch>): nat
    decreases CaseSizes(bs)
  {
    if bs == [] then 0
    else (if bs[0].values == [] then 0 else TempsAll(bs[0].body)) + TempsBranches(bs[1..])
  }

  /** Code for a statement inside `depth` loops whose first free temporary is `temp`. */
  function Lower(s: Statement, depth: nat, temp: nat): Code
    decreases Size(s), 1
  {
    match s
    case Assignment(t, v) => LowerAddress(t) + LowerExpr(v) + [StoreInstr(t.ty)]
    case IfStatement(c, t, es, e) =>
      LowerExpr(c) + IfCode(LowerAll(t, depth, temp), LowerRest(s, depth, temp + TempsAll(t)))
    case WhileStatement(c, body) => LoopCode(LowerWhileTest(c) + LowerAll(body, depth + 1, temp))
    case RepeatStatement(body, until) => LoopCode(LowerAll(body, depth + 1, temp) + LowerUntil(until))
    case ForStatement(_, _, _, _, _, body) =>
      LowerForInit(s) + LoopCode(LowerForTest(s) + LowerAll(body, depth + 1, temp) + LowerForStep(s))
    case CaseStatement(selector, bs, e) =>
      LowerExpr(selector) + [LocalSet(temp)] + LowerBranches(bs, e, temp, depth, temp + 1)
    case ExitStatement => [Br(depth)]
    case ContinueStatement => [Br(0)]
    case ReturnStatement(r) => (if r.Some? then LowerExpr(r.value) else []) + [Return]
    case EmptyStatement => []
  }

  /** A loop: branching to label 0 repeats it, branching to label 1 leaves it. */
  function LoopCode(iteration: Code): Code { [Block, Loop] + iteration + [Br(0), End, End] }

  function IfCode(body: Code, rest: Code): Code { [If] + body + rest + [End] }

  function LowerWhileTest(c: TypedExpr): Code { LowerExpr(c) + [I32Eqz, BrIf(1)] }

  function LowerUntil(until: TypedExpr): Code { LowerExpr(until) + [BrIf(1)] }

  function LowerForInit(s: Statement): Code
    requires s.ForStatement?
  {
    [I32Const(0)] + LowerExpr(s.first) + [I32Store(CastU32(s.varOffset))]
  }

  function LowerForTest(s: Statement): Code
    requires s.ForStatement?
  {
    [I32Const(0), I32Load(CastU32(s.varOffset))] + LowerExpr(s.last) + [I32GtS, BrIf(1)]
  }

  function LowerForStep(s: Statement): Code
    requires s.ForStatement?
  {
    [I32Const(0), I32Const(0), I32Load(CastU32(s.varOffset))]
    + (if s.step.Some? then LowerExpr(s.step.value) else [I32Const(1)])
    + [I32Add, I32Store(CastU32(s.varOffset))]
  }

  function LowerAll(ss: seq<Statement>, depth: nat, temp: nat): Code
    decreases Sizes(ss), 0
  {
    if ss == [] then [] else Lower(ss[0], depth, temp) + LowerAll(ss[1..], depth, temp + Temps(ss[0]))
  }

  /** What follows the THEN branch of an IF: the nested IF of the next ELSIF, or the ELSE branch. */
  function LowerRest(s: Statement, depth: nat, temp: nat): Code
    requires s.IfStatement?
    decreases Size(s), 0
  {
    if s.elsifs != [] then [Else] + Lower(NextElsif(s), depth, temp)
    else LowerElse(s.otherwise, depth, temp)
  }

  function LowerElse(e: ElseBranch, depth: nat, temp: nat): Code
    decreases ElseSize(e), 0
  {
    if e.NoElse? then [] else [Else] + LowerAll(e.body, depth, temp)
  }

  /** Comparison of the selector temporary with each listed value, joined by OR. */
  function LowerTests(values: seq<int>, sel: nat): Code
  {
    if values == [] then []
    else
      var n := |values| - 1;
      LowerTests(values[..n], sel) + [LocalGet(sel), I32Const(CastI32(values[n])), I32Eq]
      + if n > 0 then [I32Or] else []
  }

  /** The chain of tests for the branches that list values, then the ELSE branch. */
  function LowerBranches(bs: seq<CaseBranch>, e: ElseBranch, sel: nat, depth: nat, temp: nat): Code
    decreases CaseSizes(bs) + ElseSize(e), 0
  {
    if bs == [] then (if e.NoElse? then [] else LowerAll(e.body, depth, temp))
    else if bs[0].values == [] then LowerBranches(bs[1..], e, sel, depth, temp)
    else
      var rest := if NoValues(bs[1..]) && e.NoElse? then []
                  else [Else] + LowerBranches(bs[1..], e, sel, depth, temp + TempsAll(bs[0].body));
      LowerTests(bs[0].values, sel) + IfCode(LowerAll(bs[0].body, depth, temp), rest)
  }

  /** No branch lists a value. */
  predicate NoValues(bs: seq<CaseBranch>)
  {
    forall b <- bs :: b.values == []
  }
}
