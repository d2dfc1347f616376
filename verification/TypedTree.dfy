/** The tree the type checker hands to the lowering. */
module TypedTree {
  import opened Words
  import opened Wrappers

  datatype DataType = Bool | Sint | Int | Dint | Lint | Array(lower: int, upper: int, element: DataType)
  {
    /** Bytes occupied; an array count is the bound difference reinterpreted as an unsigned 64-bit number. */
    function SizeBytes(): nat
    {
      match this
      case Bool | Sint => 1
      case Int => 2
      case Dint => 4
      case Lint => 8
      case Array(lower, upper, element) => (upper - lower + 1) % 0x1_0000_0000_0000_0000 * element.SizeBytes()
    }

    /** Array bounds for which the element count does not overflow a signed 64-bit number. */
    predicate WellBounded()
    {
      Array? ==> upper - lower + 1 < 0x8000_0000_0000_0000 && element.WellBounded()
    }

    predicate IsNumeric() { this in {Sint, Int, Dint, Lint} }

    /** The scalar types whose values fit one 32-bit operand. */
    predicate IsWord() { this in {Bool, Sint, Int, Dint} }

    /** The values a cell of this type can hold. */
    ghost predicate Admits(v: int)
    {
      match this
      case Bool => v in {0, 1}
      case Sint => -0x80 <= v < 0x80
      case Int => -0x8000 <= v < 0x8000
      case _ => I32_MIN <= v < 0x8000_0000
    }
  }

  datatype SymbolInfo = SymbolInfo(ty: DataType, offset: nat, size: nat)

  type Symbols = map<string, SymbolInfo>

  datatype BinaryOp = Add | Sub | Mul | Div | Mod | Pow | Eq | Ne | Lt | Le | Gt | Ge | And | Or | Xor

  datatype UnaryOp = Neg | Not

  datatype TypedLiteral = BoolLiteral(b: bool) | IntegerLiteral(v: int, bits: nat)

  datatype TypedExpr =
    | Literal(literal: TypedLiteral, ty: DataType)
    | Variable(name: string, offset: nat, ty: DataType)
    | ArrayAccess(base: TypedExpr, index: TypedExpr, elementSize: nat, ty: DataType)
    | Binary(left: TypedExpr, op: BinaryOp, right: TypedExpr, ty: DataType)
    | Unary(unop: UnaryOp, operand: TypedExpr, ty: DataType)

  datatype ElsifBranch = ElsifBranch(condition: TypedExpr, body: seq<Statement>)

  datatype CaseBranch = CaseBranch(values: seq<int>, body: seq<Statement>)

  datatype ElseBranch = NoElse | ElseBody(body: seq<Statement>)

  datatype Statement =
    | Assignment(target: TypedExpr, value: TypedExpr)
    | IfStatement(condition: TypedExpr, thenBranch: seq<Statement>, elsifs: seq<ElsifBranch>, otherwise: ElseBranch)
    | ForStatement(variable: string, varOffset: nat, first: TypedExpr, last: TypedExpr, step: Option<TypedExpr>,
                   body: seq<Statement>)
    | WhileStatement(condition: TypedExpr, body: seq<Statement>)
    | RepeatStatement(body: seq<Statement>, until: TypedExpr)
    | CaseStatement(selector: TypedExpr, branches: seq<CaseBranch>, otherwise: ElseBranch)
    | ExitStatement
    | ContinueStatement
    | ReturnStatement(result: Option<TypedExpr>)
    | EmptyStatement

  // ---- Size measures, for termination ------------------------------------

  function Size(s: Statement): (n: nat)
    ensures n > 0
    decreases s, 1
  {
    match s
    case IfStatement(_, t, es, e) => 1 + Sizes(t) + ElsifSizes(es) + ElseSize(e)
    case ForStatement(_, _, _, _, _, body) => 1 + Sizes(body)
    case WhileStatement(_, body) => 1 + Sizes(body)
    case RepeatStatement(body, _) => 1 + Sizes(body)
    case CaseStatement(_, bs, e) => 1 + CaseSizes(bs) + ElseSize(e)
    case _ => 1
  }

  function Sizes(ss: seq<Statement>): nat
    decreases ss, 0
  {
    if ss == [] then 0 else 1 + Size(ss[0]) + Sizes(ss[1..])
  }

  function ElsifSizes(es: seq<ElsifBranch>): nat
    decreases es, 0
  {
    if es == [] then 0 else 1 + Sizes(es[0].body) + ElsifSizes(es[1..])
  }

  function CaseSizes(bs: seq<CaseBranch>): nat
    decreases bs, 0
  {
    if bs == [] then 0 else 1 + Sizes(bs[0].body) + CaseSizes(bs[1..])
  }

  function ElseSize(e: ElseBranch): nat
    decreases e, 0
  {
    if e.NoElse? then 0 else 1 + Sizes(e.body)
  }

  /** An IF whose first condition failed continues as the IF of its remaining branches. */
  function NextElsif(s: Statement): (r: Statement)
    requires s.IfStatement? && s.elsifs != []
    ensures r.IfStatement? && Size(r) < Size(s)
  {
    IfStatement(s.elsifs[0].condition, s.elsifs[0].body, s.elsifs[1..], s.otherwise)
  }
}
