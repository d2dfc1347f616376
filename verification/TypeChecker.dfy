/** Type checking of expressions and statements against a symbol table, and the rules its results obey. */
module TypeChecker {
  import opened Words
  import opened Wrappers
  import opened TypedTree
  import Ast

  // ---- Expressions -------------------------------------------------------

  function LiteralBits(v: int): nat
  {
    if -0x80 <= v < 0x80 then 8
    else if -0x8000 <= v < 0x8000 then 16
    else if I32_MIN <= v < 0x8000_0000 then 32
    else 64
  }

  function LiteralType(bits: nat): DataType
  {
    if bits == 8 then Sint else if bits == 16 then Int else if bits == 64 then Lint else Dint
  }

  function NumericPromotion(left: DataType, right: DataType): DataType
  {
    if left == Lint || right == Lint then Lint
    else if left == Dint || right == Dint then Dint
    else Int
  }

  function BinaryResultType(left: DataType, op: BinaryOp, right: DataType): Result<DataType>
  {
    match op
    case Eq | Ne | Lt | Le | Gt | Ge => Success(Bool)
    case And | Or | Xor =>
      if left == Bool && right == Bool then Success(Bool)
      else Failure("Logical operators require BOOL operands")
    case _ => Success(NumericPromotion(left, right))
  }

  function ExpectBool(ty: DataType): Result<()>
  {
    if ty == Bool then Success(()) else Failure("Expected BOOL")
  }

  function CheckAssignmentTypes(target: DataType, source: DataType): Result<()>
  {
    if target == source || (target.IsNumeric() && source.IsNumeric()) then Success(())
    else Failure("Cannot assign")
  }

  function CheckExpr(vars: Symbols, e: Ast.Expression): Result<TypedExpr>
  {
    match e
    case BoolLit(b) => Success(Literal(BoolLiteral(b), Bool))
    case IntLit(v) => Success(Literal(IntegerLiteral(v, LiteralBits(v)), LiteralType(LiteralBits(v))))
    case Name(name) =>
      if name in vars then Success(Variable(name, vars[name].offset, vars[name].ty))
      else Failure("Undefined variable")
    case Index(base, index) =>
      var arr :- CheckExpr(vars, base);
      var idx :- CheckExpr(vars, index);
      if arr.ty.Array?
      then Success(ArrayAccess(arr, idx, arr.ty.element.SizeBytes(), arr.ty.element))
      else Failure("Cannot index non-array type")
    case BinaryExpr(left, op, right) =>
      var l :- CheckExpr(vars, left);
      var r :- CheckExpr(vars, right);
      var ty :- BinaryResultType(l.ty, op, r.ty);
      Success(Binary(l, op, r, ty))
    case UnaryExpr(op, operand) =>
      var typed :- CheckExpr(vars, operand);
      if op == Neg then Success(Unary(op, typed, typed.ty))
      else
        var _ :- ExpectBool(typed.ty);
        Success(Unary(op, typed, Bool))
    case Paren(inner) => CheckExpr(vars, inner)
  }

  function CheckOptional(vars: Symbols, e: Option<Ast.Expression>): Result<Option<TypedExpr>>
  {
    if e.None? then Success(None) else
    var typed :- CheckExpr(vars, e.value);
    Success(Some(typed))
  }

  function CheckCondition(vars: Symbols, e: Ast.Expression): Result<TypedExpr>
  {
    var c :- CheckExpr(vars, e);
    var _ :- ExpectBool(c.ty);
    Success(c)
  }

  // ---- Statements --------------------------------------------------------

  function ExprToConst(e: Ast.Expression): Result<int>
  {
    if e.IntLit? then Success(e.v) else Failure("Expected constant expression")
  }

  function CheckCaseValues(values: seq<Ast.CaseValue>): Result<seq<int>>
  {
    if values == [] then Success([])
    else match values[0]
      case Range(_, _) => Failure("CASE ranges not yet supported")
      case Single(e) =>
        var v :- ExprToConst(e);
        var rest :- CheckCaseValues(values[1..]);
        Success([v] + rest)
  }

  function CheckStatement(vars: Symbols, s: Ast.Stmt): Result<Statement>
    decreases s, 1
  {
    match s
    case Assign(target, value) =>
      var t :- CheckExpr(vars, target);
      var v :- CheckExpr(vars, value);
      var _ :- CheckAssignmentTypes(t.ty, v.ty);
      Success(Assignment(t, v))
    case If(condition, thenBranch, elsifs, otherwise) =>
      var c :- CheckCondition(vars, condition);
      var t :- CheckStatements(vars, thenBranch);
      var e :- CheckOtherwise(vars, otherwise);
      var es :- CheckElsifs(vars, elsifs);
      Success(IfStatement(c, t, es, e))
    case For(variable, first, last, step, body) =>
      if variable !in vars then Failure("Undefined variable") else
      var f :- CheckExpr(vars, first);
      var l :- CheckExpr(vars, last);
      var st :- CheckOptional(vars, step);
      var b :- CheckStatements(vars, body);
      Success(ForStatement(variable, vars[variable].offset, f, l, st, b))
    case While(condition, body) =>
      var c :- CheckCondition(vars, condition);
      var b :- CheckStatements(vars, body);
      Success(WhileStatement(c, b))
    case Repeat(body, until) =>
      var b :- CheckStatements(vars, body);
      var u :- CheckCondition(vars, until);
      Success(RepeatStatement(b, u))
    case Case(selector, branches, otherwise) =>
      var sel :- CheckExpr(vars, selector);
      var e :- CheckOtherwise(vars, otherwise);
      var bs :- CheckBranches(vars, branches);
      Success(CaseStatement(sel, bs, e))
    case Exit => Success(ExitStatement)
    case Continue => Success(ContinueStatement)
    case Return(result) =>
      var r :- CheckOptional(vars, result);
      Success(ReturnStatement(r))
    case Empty => Success(EmptyStatement)
  }

  function CheckStatements(vars: Symbols, ss: seq<Ast.Stmt>): Result<seq<Statement>>
    decreases ss, 0
  {
    if ss == [] then Success([]) else
    var s :- CheckStatement(vars, ss[0]);
    var rest :- CheckStatements(vars, ss[1..]);
    Success([s] + rest)
  }

  function CheckElsifs(vars: Symbols, es: seq<Ast.Elsif>): Result<seq<ElsifBranch>>
    decreases es, 0
  {
    if es == [] then Success([]) else
    var c :- CheckCondition(vars, es[0].condition);
    var b :- CheckStatements(vars, es[0].body);
    var rest :- CheckElsifs(vars, es[1..]);
    Success([ElsifBranch(c, b)] + rest)
  }

  function CheckBranches(vars: Symbols, bs: seq<Ast.Branch>): Result<seq<CaseBranch>>
    decreases bs, 0
  {
    if bs == [] then Success([]) else
    var values :- CheckCaseValues(bs[0].values);
    var b :- CheckStatements(vars, bs[0].body);
    var rest :- CheckBranches(vars, bs[1..]);
    Success([CaseBranch(values, b)] + rest)
  }

  function CheckOtherwise(vars: Symbols, o: Ast.Otherwise): Result<ElseBranch>
    decreases o, 0
  {
    if o.Absent? then Success(NoElse) else
    var b :- CheckStatements(vars, o.body);
    Success(ElseBody(b))
  }

  // ---- Typing rules of checked trees -------------------------------------

  /** The typing rules as a property of a finished tree: every name resolved, every type justified. */
  ghost predicate WellTyped(vars: Symbols, e: TypedExpr)
  {
    match e
    case Literal(BoolLiteral(_), ty) => ty == Bool
    case Literal(IntegerLiteral(v, bits), ty) =>
      bits == LiteralBits(v) && ty == LiteralType(bits)
    case Variable(name, offset, ty) => name in vars && vars[name].offset == offset && vars[name].ty == ty
    case ArrayAccess(base, index, elementSize, ty) =>
      && WellTyped(vars, base) && WellTyped(vars, index)
      && base.ty.Array? && base.ty.element == ty && elementSize == ty.SizeBytes()
    case Binary(l, op, r, ty) => WellTyped(vars, l) && WellTyped(vars, r) && BinaryResultType(l.ty, op, r.ty) == Success(ty)
    case Unary(Not, x, ty) => WellTyped(vars, x) && x.ty == Bool && ty == Bool
    case Unary(Neg, x, ty) => WellTyped(vars, x) && x.ty == ty
  }

  ghost predicate WellTypedCondition(vars: Symbols, e: TypedExpr)
  {
    WellTyped(vars, e) && e.ty == Bool
  }

  ghost predicate WellTypedStatement(vars: Symbols, s: Statement)
    decreases Size(s)
  {
    match s
    case Assignment(t, v) => WellTyped(vars, t) && WellTyped(vars, v) && CheckAssignmentTypes(t.ty, v.ty).Success?
    case IfStatement(c, t, es, e) =>
      && WellTypedCondition(vars, c) && WellTypedStatements(vars, t)
      && if es == [] then WellTypedElse(vars, e) else WellTypedStatement(vars, NextElsif(s))
    case ForStatement(x, offset, f, l, st, body) =>
      && x in vars && vars[x].offset == offset && WellTyped(vars, f) && WellTyped(vars, l)
      && (st.Some? ==> WellTyped(vars, st.value)) && WellTypedStatements(vars, body)
    case WhileStatement(c, body) => WellTypedCondition(vars, c) && WellTypedStatements(vars, body)
    case RepeatStatement(body, u) => WellTypedCondition(vars, u) && WellTypedStatements(vars, body)
    case CaseStatement(sel, bs, e) => WellTyped(vars, sel) && WellTypedBranches(vars, bs) && WellTypedElse(vars, e)
    case ReturnStatement(r) => r.Some? ==> WellTyped(vars, r.value)
    case _ => true
  }

  ghost predicate WellTypedStatements(vars: Symbols, ss: seq<Statement>)
    decreases Sizes(ss)
  {
    ss != [] ==> WellTypedStatement(vars, ss[0]) && WellTypedStatements(vars, ss[1..])
  }

  ghost predicate WellTypedBranches(vars: Symbols, bs: seq<CaseBranch>)
    decreases CaseSizes(bs)
  {
    bs != [] ==> WellTypedStatements(vars, bs[0].body) && WellTypedBranches(vars, bs[1..])
  }

  ghost predicate WellTypedElse(vars: Symbols, e: ElseBranch)
    decreases ElseSize(e)
  {
    e.ElseBody? ==> WellTypedStatements(vars, e.body)
  }
}
