/** Big-step meaning of checked Structured Text over named variables. There are no addresses and no
    instructions here: a store maps each variable element to its value. */
module SourceSemantics {
  import opened Words
  import opened Wrappers
  import opened TypedTree

  /** One scalar variable (index 0) or one array element (index as written in the program). */
  datatype Cell = Cell(name: string, index: int)

  type Store = map<Cell, int>

  function Get(st: Store, c: Cell): int { if c in st then st[c] else 0 }

  /** Trap: division by zero or overflow. Undefined: outside the modelled language (index out of range). */
  datatype Value = Val(v: I32) | Trap | Undefined

  datatype Place = At(cell: Cell) | PlaceTrap | PlaceUndefined

  /** Operators work on 32-bit two's-complement values; only stores narrow further. */
  function Apply(op: BinaryOp, a: I32, b: I32): Value
  {
    match op
    case Add => Val(Wrap32(a + b))
    case Sub => Val(Wrap32(a - b))
    case Mul => Val(Wrap32(a * b))
    case Div => if b == 0 || (a == I32_MIN && b == -1) then Trap else TruncDivFits(a, b); Val(TruncDiv(a, b))
    case Mod => if b == 0 then Trap else if b == -1 then Val(0) else TruncDivFits(a, b); Val(TruncRem(a, b))
    case Pow => Undefined
    case Eq => Val(Truth(a == b))
    case Ne => Val(Truth(a != b))
    case Lt => Val(Truth(a < b))
    case Le => Val(Truth(a <= b))
    case Gt => Val(Truth(a > b))
    case Ge => Val(Truth(a >= b))
    case And => Val(Truth(a != 0 && b != 0))
    case Or => Val(Truth(a != 0 || b != 0))
    case Xor => Val(Truth((a != 0) != (b != 0)))
  }

  function Eval(e: TypedExpr, st: Store): Value
  {
    match e
    case Literal(BoolLiteral(b), _) => Val(Truth(b))
    case Literal(IntegerLiteral(v, _), _) => if I32_MIN <= v < 0x8000_0000 then Val(v) else Undefined
    case Variable(name, _, _) => Val(Wrap32(Get(st, Cell(name, 0))))
    case ArrayAccess(base, index, _, _) =>
      (match EvalElement(base, Eval(index, st), st)
       case At(c) => Val(Wrap32(Get(st, c)))
       case PlaceTrap => Trap
       case PlaceUndefined => Undefined)
    case Binary(l, op, r, _) => Combine(op, Eval(l, st), Eval(r, st))
    case Unary(op, x, _) => ApplyUnary(op, Eval(x, st))
  }

  /** Both operands are always evaluated, the left one first. */
  function Combine(op: BinaryOp, a: Value, b: Value): Value
  {
    if a.Val? then (if b.Val? then Apply(op, a.v, b.v) else b) else a
  }

  function ApplyUnary(op: UnaryOp, a: Value): Value
  {
    if a.Val? then Val(if op == Not then Truth(a.v == 0) else Wrap32(-(a.v as int))) else a
  }

  /** The element of array `base` at an evaluated index. */
  function EvalElement(base: TypedExpr, index: Value, st: Store): Place
  {
    match index
    case Val(i) => if base.Variable? && Cell(base.name, i) in st then At(Cell(base.name, i)) else PlaceUndefined
    case Trap => PlaceTrap
    case Undefined => PlaceUndefined
  }

  /** The cell an assignment target denotes. */
  function EvalPlace(e: TypedExpr, st: Store): Place
  {
    match e
    case Variable(name, _, _) => At(Cell(name, 0))
    case ArrayAccess(base, index, _, _) => EvalElement(base, Eval(index, st), st)
    case _ => PlaceUndefined
  }

  /** How a statement ends. Exited, Continued: at an EXIT or CONTINUE of the loop around the statement. Jumped: at a branch
      to the `target`-th label around the statement, which is how emitted code does both (see BranchSemantics). OutOfFuel:
      the loop-iteration budget ran out. */
  datatype Outcome =
    | Normal(st: Store)
    | Returned(st: Store)
    | Exited(st: Store)
    | Continued(st: Store)
    | Jumped(st: Store, target: nat)
    | Trapped(st: Store)
    | NoMeaning
    | OutOfFuel

  function Failed(v: Value, st: Store): (o: Outcome)
    requires !v.Val?
    ensures o.Trapped? || o.NoMeaning?
  {
    if v.Trap? then Trapped(st) else NoMeaning
  }

  /** `fuel` bounds the nesting and repetition of loop iterations only. */
  function Exec(s: Statement, st: Store, fuel: nat): Outcome
    decreases fuel, Size(s), 1
  {
    match s
    case Assignment(target, value) =>
      (match EvalPlace(target, st)
       case PlaceTrap => Trapped(st)
       case PlaceUndefined => NoMeaning
       case At(c) =>
         match Eval(value, st)
         case Val(v) => Normal(st[c := Narrow(v, target.ty.SizeBytes())])
         case failed => Failed(failed, st))
    case IfStatement(c, thenBranch, elsifs, otherwise) =>
      (match Eval(c, st)
       case Val(v) =>
         if v != 0 then ExecAll(thenBranch, st, fuel)
         else if elsifs != [] then Exec(NextElsif(s), st, fuel)
         else ExecElse(otherwise, st, fuel)
       case failed => Failed(failed, st))
    case WhileStatement(c, body) =>
      if fuel == 0 then OutOfFuel
      else (match Eval(c, st)
        case Val(v) =>
          if v == 0 then Normal(st) else
          var o := ExecAll(body, st, fuel - 1);
          if o.Normal? || o.Continued? then Exec(s, o.st, fuel - 1)
          else if o.Exited? then Normal(o.st)
          else o
        case failed => Failed(failed, st))
    case RepeatStatement(body, until) =>
      if fuel == 0 then OutOfFuel
      else
        var o := ExecAll(body, st, fuel - 1);
        if o.Exited? then Normal(o.st)
        else if !o.Normal? && !o.Continued? then o
        else (match Eval(until, o.st)
          case Val(v) => if v != 0 then Normal(o.st) else Exec(s, o.st, fuel - 1)
          case failed => Failed(failed, o.st))
    case ForStatement(x, _, first, _, _, _) =>
      (match Eval(first, st)
       case Val(v) => Iterate(s, st[Cell(x, 0) := v], fuel)
       case failed => Failed(failed, st))
    case CaseStatement(selector, branches, otherwise) =>
      (match Eval(selector, st)
       case Val(v) => ExecBranches(branches, otherwise, v, st, fuel)
       case failed => Failed(failed, st))
    case ReturnStatement(result) =>
      if result.None? then Returned(st)
      else (match Eval(result.value, st)
        case Val(_) => Returned(st)
        case failed => Failed(failed, st))
    case ExitStatement => Exited(st)
    case ContinueStatement => Continued(st)
    case EmptyStatement => Normal(st)
  }

  function ExecAll(ss: seq<Statement>, st: Store, fuel: nat): Outcome
    decreases fuel, Sizes(ss), 0
  {
    if ss == [] then Normal(st) else
    var o := Exec(ss[0], st, fuel);
    if o.Normal? then ExecAll(ss[1..], o.st, fuel) else o
  }

  function ExecElse(e: ElseBranch, st: Store, fuel: nat): Outcome
    decreases fuel, ElseSize(e), 0
  {
    if e.NoElse? then Normal(st) else ExecAll(e.body, st, fuel)
  }

  /** The first branch listing the selector value, else the ELSE branch. */
  function ExecBranches(bs: seq<CaseBranch>, e: ElseBranch, v: I32, st: Store, fuel: nat): Outcome
    decreases fuel, CaseSizes(bs) + ElseSize(e), 1
  {
    if bs == [] then ExecElse(e, st, fuel)
    else if v in bs[0].values then ExecAll(bs[0].body, st, fuel)
    else ExecBranches(bs[1..], e, v, st, fuel)
  }

  /** FOR after initialisation: both bound and step are evaluated anew in every iteration, and
      the loop counts while the variable is at most the bound. */
  function Iterate(s: Statement, st: Store, fuel: nat): Outcome
    requires s.ForStatement?
    decreases fuel, Size(s), 0
  {
    if fuel == 0 then OutOfFuel else
    match Eval(s.last, st)
    case Val(bound) =>
      if Get(st, Cell(s.variable, 0)) > bound then Normal(st) else
      var o := ExecAll(s.body, st, fuel - 1);
      if o.Exited? then Normal(o.st)
      else if !o.Normal? && !o.Continued? then o
      else (match EvalStep(s.step, o.st)
        case Val(d) => Iterate(s, o.st[Cell(s.variable, 0) := Wrap32(Get(o.st, Cell(s.variable, 0)) + d)], fuel - 1)
        case failed => Failed(failed, o.st))
    case failed => Failed(failed, st)
  }

  function EvalStep(step: Option<TypedExpr>, st: Store): Value
  {
    if step.None? then Val(1) else Eval(step.value, st)
  }

  // ---- Cells and their types ---------------------------------------------

  /** `c` is an element of a declared variable. */
  predicate IsCell(vars: Symbols, c: Cell)
  {
    c.name in vars &&
    match vars[c.name].ty
    case Array(lower, upper, _) => lower <= c.index <= upper
    case _ => c.index == 0
  }

  function CellType(vars: Symbols, c: Cell): DataType
    requires IsCell(vars, c)
  {
    var ty := vars[c.name].ty;
    if ty.Array? then ty.element else ty
  }

  /** The store has exactly the declared cells, and each holds a value of its type. */
  ghost predicate WellFormed(vars: Symbols, st: Store)
  {
    && (forall c :: IsCell(vars, c) <==> c in st)
    && (forall c <- st :: IsCell(vars, c) && CellType(vars, c).Admits(st[c]))
  }

  // ---- The language fragment with this meaning ----------------------------

  /** The expressions the compiler translates with the intended meaning. */
  predicate ExprSupported(e: TypedExpr)
  {
    match e
    case Literal(BoolLiteral(_), _) => true
    case Literal(IntegerLiteral(_, bits), _) => bits <= 32
    case Variable(_, _, ty) => ty.IsWord()
    case ArrayAccess(base, index, _, ty) =>
      base.Variable? && base.ty.Array? && base.ty.lower == 0 && ty.IsWord() && ExprSupported(index)
    case Binary(l, op, r, _) => op != Pow && ExprSupported(l) && ExprSupported(r)
    case Unary(op, x, _) => op == Not && ExprSupported(x)
  }

  /** The statements the compiler translates with the intended meaning. */
  predicate Supported(vars: Symbols, s: Statement)
    decreases Size(s)
  {
    match s
    case Assignment(t, v) => (t.Variable? || t.ArrayAccess?) && ExprSupported(t) && ExprSupported(v)
    case IfStatement(c, t, es, e) =>
      && ExprSupported(c) && AllSupported(vars, t)
      && if es == [] then ElseSupported(vars, e) else Supported(vars, NextElsif(s))
    case ForStatement(x, _, f, l, st, body) =>
      && x in vars && vars[x].ty == Dint && ExprSupported(f) && ExprSupported(l)
      && (st.Some? ==> ExprSupported(st.value)) && AllSupported(vars, body)
    case WhileStatement(c, body) => ExprSupported(c) && AllSupported(vars, body)
    case RepeatStatement(body, u) => ExprSupported(u) && AllSupported(vars, body)
    case CaseStatement(sel, bs, e) => ExprSupported(sel) && BranchesSupported(vars, bs) && ElseSupported(vars, e)
    case ReturnStatement(r) => r.Some? ==> ExprSupported(r.value)
    case ExitStatement => true
    case ContinueStatement => true
    case EmptyStatement => true
  }

  predicate AllSupported(vars: Symbols, ss: seq<Statement>)
    decreases Sizes(ss)
  {
    ss != [] ==> Supported(vars, ss[0]) && AllSupported(vars, ss[1..])
  }

  predicate BranchesSupported(vars: Symbols, bs: seq<CaseBranch>)
    decreases CaseSizes(bs)
  {
    bs != [] ==>
      && (forall v <- bs[0].values :: I32_MIN <= v < 0x8000_0000)
      && AllSupported(vars, bs[0].body) && BranchesSupported(vars, bs[1..])
  }

  predicate ElseSupported(vars: Symbols, e: ElseBranch)
    decreases ElseSize(e)
  {
    e.ElseBody? ==> AllSupported(vars, e.body)
  }
}
