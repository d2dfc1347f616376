/** Structured Text as parsed: the constructs the type checker model accepts. */
module Ast {
  import opened TypedTree
  import opened Wrappers

  datatype Expression =
    | BoolLit(b: bool)
    | IntLit(v: int)
    | Name(name: string)
    | Index(base: Expression, index: Expression)
    | BinaryExpr(left: Expression, op: BinaryOp, right: Expression)
    | UnaryExpr(unop: UnaryOp, operand: Expression)
    | Paren(inner: Expression)

  datatype Elsif = Elsif(condition: Expression, body: seq<Stmt>)

  datatype CaseValue = Single(e: Expression) | Range(lo: Expression, hi: Expression)

  datatype Branch = Branch(values: seq<CaseValue>, body: seq<Stmt>)

  datatype Otherwise = Absent | Present(body: seq<Stmt>)

  datatype Stmt =
    | Assign(target: Expression, value: Expression)
    | If(condition: Expression, thenBranch: seq<Stmt>, elsifs: seq<Elsif>, otherwise: Otherwise)
    | For(variable: string, first: Expression, last: Expression, step: Option<Expression>, body: seq<Stmt>)
    | While(condition: Expression, body: seq<Stmt>)
    | Repeat(body: seq<Stmt>, until: Expression)
    | Case(selector: Expression, branches: seq<Branch>, otherwise: Otherwise)
    | Exit
    | Continue
    | Return(result: Option<Expression>)
    | Empty

  datatype VarDecl = VarDecl(name: string, ty: DataType)

  datatype Program = Program(variables: seq<seq<VarDecl>>, body: seq<Stmt>)
}
