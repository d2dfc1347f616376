/** The type checker decides the typing rules: it returns a typed tree exactly if the tree obeys the rules and is a
    typing of the given program text. */
module Typing {
  import opened Wrappers
  import opened TypedTree
  import opened TypeChecker
  import Ast

  // ---- Forgetting types ----------------------------------------------------------

  function ErasedExpr(e: TypedExpr): Ast.Expression
  {
    match e
    case Literal(BoolLiteral(b), _) => Ast.BoolLit(b)
    case Literal(IntegerLiteral(v, _), _) => Ast.IntLit(v)
    case Variable(name, _, _) => Ast.Name(name)
    case ArrayAccess(base, index, _, _) => Ast.Index(ErasedExpr(base), ErasedExpr(index))
    case Binary(l, op, r, _) => Ast.BinaryExpr(ErasedExpr(l), op, ErasedExpr(r))
    case Unary(op, x, _) => Ast.UnaryExpr(op, ErasedExpr(x))
  }

  function ErasedOption(e: Option<TypedExpr>): Option<Ast.Expression>
  {
    if e.None? then None else Some(ErasedExpr(e.value))
  }

  function ErasedValues(values: seq<int>): seq<Ast.CaseValue>
  {
    if values == [] then [] else [Ast.Single(Ast.IntLit(values[0]))] + ErasedValues(values[1..])
  }

  function Erased(s: Statement): Ast.Stmt
    decreases s, 1
  {
    match s
    case Assignment(t, v) => Ast.Assign(ErasedExpr(t), ErasedExpr(v))
    case IfStatement(c, t, es, e) => Ast.If(ErasedExpr(c), ErasedAll(t), ErasedElsifs(es), ErasedElse(e))
    case ForStatement(x, _, f, l, st, body) => Ast.For(x, ErasedExpr(f), ErasedExpr(l), ErasedOption(st), ErasedAll(body))
    case WhileStatement(c, body) => Ast.While(ErasedExpr(c), ErasedAll(body))
    case RepeatStatement(body, u) => Ast.Repeat(ErasedAll(body), ErasedExpr(u))
    case CaseStatement(sel, bs, e) => Ast.Case(ErasedExpr(sel), ErasedBranches(bs), ErasedElse(e))
    case ExitStatement => Ast.Exit
    case ContinueStatement => Ast.Continue
    case ReturnStatement(r) => Ast.Return(ErasedOption(r))
    case EmptyStatement => Ast.Empty
  }

  function ErasedAll(ss: seq<Statement>): (r: seq<Ast.Stmt>)
    ensures r == [] <==> ss == []
    decreases ss, 0
  {
    if ss == [] then [] else [Erased(ss[0])] + ErasedAll(ss[1..])
  }

  function ErasedElsifs(es: seq<ElsifBranch>): (r: seq<Ast.Elsif>)
    ensures r == [] <==> es == []
    decreases es, 0
  {
    if es == [] then []
    else [Ast.Elsif(ErasedExpr(es[0].condition), ErasedAll(es[0].body))] + ErasedElsifs(es[1..])
  }

  function ErasedBranches(bs: seq<CaseBranch>): (r: seq<Ast.Branch>)
    ensures r == [] <==> bs == []
    decreases bs, 0
  {
    if bs == [] then []
    else [Ast.Branch(ErasedValues(bs[0].values), ErasedAll(bs[0].body))] + ErasedBranches(bs[1..])
  }

  function ErasedElse(e: ElseBranch): Ast.Otherwise
    decreases e, 0
  {
    if e.NoElse? then Ast.Absent else Ast.Present(ErasedAll(e.body))
  }

  // ---- Forgetting parentheses ------------------------------------------------------

  function BareExpr(e: Ast.Expression): Ast.Expression
  {
    match e
    case Index(a, i) => Ast.Index(BareExpr(a), BareExpr(i))
    case BinaryExpr(l, op, r) => Ast.BinaryExpr(BareExpr(l), op, BareExpr(r))
    case UnaryExpr(op, x) => Ast.UnaryExpr(op, BareExpr(x))
    case Paren(x) => BareExpr(x)
    case _ => e
  }

  function BareOption(e: Option<Ast.Expression>): Option<Ast.Expression>
  {
    if e.None? then None else Some(BareExpr(e.value))
  }

  /** Parentheses are kept in CASE labels, which must be literals. */
  function Bare(s: Ast.Stmt): Ast.Stmt
    decreases s, 1
  {
    match s
    case Assign(t, v) => Ast.Assign(BareExpr(t), BareExpr(v))
    case If(c, t, es, o) => Ast.If(BareExpr(c), BareAll(t), BareElsifs(es), BareOtherwise(o))
    case For(x, f, l, st, body) => Ast.For(x, BareExpr(f), BareExpr(l), BareOption(st), BareAll(body))
    case While(c, body) => Ast.While(BareExpr(c), BareAll(body))
    case Repeat(body, u) => Ast.Repeat(BareAll(body), BareExpr(u))
    case Case(sel, bs, o) => Ast.Case(BareExpr(sel), BareBranches(bs), BareOtherwise(o))
    case Return(r) => Ast.Return(BareOption(r))
    case _ => s
  }

  function BareAll(ss: seq<Ast.Stmt>): (r: seq<Ast.Stmt>)
    ensures r == [] <==> ss == []
    decreases ss, 0
  {
    if ss == [] then [] else [Bare(ss[0])] + BareAll(ss[1..])
  }

  function BareElsifs(es: seq<Ast.Elsif>): (r: seq<Ast.Elsif>)
    ensures r == [] <==> es == []
    decreases es, 0
  {
    if es == [] then [] else [Ast.Elsif(BareExpr(es[0].condition), BareAll(es[0].body))] + BareElsifs(es[1..])
  }

  function BareBranches(bs: seq<Ast.Branch>): (r: seq<Ast.Branch>)
    ensures r == [] <==> bs == []
    decreases bs, 0
  {
    if bs == [] then [] else [Ast.Branch(bs[0].values, BareAll(bs[0].body))] + BareBranches(bs[1..])
  }

  function BareOtherwise(o: Ast.Otherwise): Ast.Otherwise
    decreases o, 0
  {
    if o.Absent? then Ast.Absent else Ast.Present(BareAll(o.body))
  }

  // ---- Exactness --------------------------------------------------------------------

  lemma FirstAndRest<T>(a: T, s: seq<T>, b: T, t: seq<T>)
    ensures [a] + s == [b] + t <==> a == b && s == t
  {
    if [a] + s == [b] + t {
      assert ([a] + s)[0] == a && ([b] + t)[0] == b && ([a] + s)[1..] == s && ([b] + t)[1..] == t;
    }
  }

  /** `t` is a typing of the expression `e`. */
  ghost predicate TypesExpr(vars: Symbols, t: TypedExpr, e: Ast.Expression)
  {
    WellTyped(vars, t) && ErasedExpr(t) == BareExpr(e)
  }

  lemma {:induction false} CheckExprExact(vars: Symbols, e: Ast.Expression, t: TypedExpr)
    ensures CheckExpr(vars, e) == Success(t) <==> TypesExpr(vars, t, e)
    decreases e
  {
    match e
    case Index(a, i) =>
      if t.ArrayAccess? {
        CheckExprExact(vars, a, t.base);
        CheckExprExact(vars, i, t.index);
      }
    case BinaryExpr(l, _, r) =>
      if t.Binary? {
        CheckExprExact(vars, l, t.left);
        CheckExprExact(vars, r, t.right);
      }
    case UnaryExpr(_, x) => if t.Unary? { CheckExprExact(vars, x, t.operand); }
    case Paren(x) => CheckExprExact(vars, x, t);
    case _ =>
  }

  lemma {:induction false} CheckValuesExact(values: seq<Ast.CaseValue>, t: seq<int>)
    ensures CheckCaseValues(values) == Success(t) <==> ErasedValues(t) == values
  {
    if values != [] && t != [] {
      CheckValuesExact(values[1..], t[1..]);
      var r := CheckCaseValues(values[1..]);
      if values[0].Single? && values[0].e.IntLit? && r.Success? {
        FirstAndRest(values[0].e.v, r.value, t[0], t[1..]);
      }
      assert t == [t[0]] + t[1..] && values == [values[0]] + values[1..];
      FirstAndRest(Ast.Single(Ast.IntLit(t[0])), ErasedValues(t[1..]), values[0], values[1..]);
      if r.Failure? { NoValues(values[1..]); }
    }
  }

  lemma NoValues(values: seq<Ast.CaseValue>)
    requires CheckCaseValues(values).Failure?
    ensures forall t :: ErasedValues(t) != values
  {
    forall t ensures ErasedValues(t) != values { CheckValuesExact(values, t); }
  }

  /** The typing rule of IF, branch by branch. */
  ghost predicate WellTypedElsifs(vars: Symbols, es: seq<ElsifBranch>)
  {
    forall b <- es :: WellTypedCondition(vars, b.condition) && WellTypedStatements(vars, b.body)
  }

  lemma {:induction false} IfTypedByBranches(vars: Symbols, c: TypedExpr, t: seq<Statement>, es: seq<ElsifBranch>, e: ElseBranch)
    ensures WellTypedStatement(vars, IfStatement(c, t, es, e)) <==>
              WellTypedCondition(vars, c) && WellTypedStatements(vars, t) && WellTypedElsifs(vars, es) && WellTypedElse(vars, e)
    decreases |es|
  {
    if es != [] {
      IfTypedByBranches(vars, es[0].condition, es[0].body, es[1..], e);
      assert NextElsif(IfStatement(c, t, es, e)) == IfStatement(es[0].condition, es[0].body, es[1..], e);
      assert es == [es[0]] + es[1..];
    }
  }

  lemma ConditionExact(vars: Symbols, e: Ast.Expression, t: TypedExpr)
    ensures CheckCondition(vars, e) == Success(t) <==> WellTypedCondition(vars, t) && ErasedExpr(t) == BareExpr(e)
  {
    CheckExprExact(vars, e, t);
    if CheckExpr(vars, e).Success? { CheckExprExact(vars, e, CheckExpr(vars, e).value); }
  }

  lemma OptionExact(vars: Symbols, e: Option<Ast.Expression>, t: Option<TypedExpr>)
    ensures CheckOptional(vars, e) == Success(t) <==>
              (t.Some? ==> WellTyped(vars, t.value)) && ErasedOption(t) == BareOption(e)
  {
    if e.Some? && t.Some? { CheckExprExact(vars, e.value, t.value); }
    if e.Some? && CheckExpr(vars, e.value).Success? { CheckExprExact(vars, e.value, CheckExpr(vars, e.value).value); }
  }

  /** `t` is a typing of the statement `s`. */
  ghost predicate TypesStatement(vars: Symbols, t: Statement, s: Ast.Stmt)
  {
    WellTypedStatement(vars, t) && Erased(t) == Bare(s)
  }

  /** The checker accepts a statement exactly with its typing. */
  lemma {:induction false} CheckStatementExact(vars: Symbols, s: Ast.Stmt, t: Statement)
    ensures CheckStatement(vars, s) == Success(t) <==> TypesStatement(vars, t, s)
    decreases s, 1
  {
    hide CheckExpr, CheckOptional, CheckCondition, WellTyped, ErasedExpr, BareExpr, ErasedOption, BareOption, WellTypedCondition;
    match s
    case Assign(target, value) => AssignExact(vars, s, t);
    case If(c, thenBranch, es, o) =>
      if t.IfStatement? {
        ConditionExact(vars, c, t.condition);
        CheckAllExact(vars, thenBranch, t.thenBranch);
        CheckElsifsExact(vars, es, t.elsifs);
        CheckOtherwiseExact(vars, o, t.otherwise);
        IfTypedByBranches(vars, t.condition, t.thenBranch, t.elsifs, t.otherwise);
        hide WellTypedStatement, WellTypedElsifs, CheckStatements, CheckElsifs, CheckOtherwise;
        assert Erased(t) == Bare(s) <==>
                 ErasedExpr(t.condition) == BareExpr(c) && ErasedAll(t.thenBranch) == BareAll(thenBranch)
                 && ErasedElsifs(t.elsifs) == BareElsifs(es) && ErasedElse(t.otherwise) == BareOtherwise(o);
      }
    case For(_, first, last, step, body) =>
      if t.ForStatement? {
        CheckAllExact(vars, body, t.body);
        ForExact(vars, s, t);
      }
    case While(c, body) =>
      if t.WhileStatement? {
        ConditionExact(vars, c, t.condition);
        CheckAllExact(vars, body, t.body);
      }
    case Repeat(body, until) =>
      if t.RepeatStatement? {
        CheckAllExact(vars, body, t.body);
        ConditionExact(vars, until, t.until);
      }
    case Case(selector, bs, o) =>
      if t.CaseStatement? {
        CheckExprExact(vars, selector, t.selector);
        CheckBranchesExact(vars, bs, t.branches);
        CheckOtherwiseExact(vars, o, t.otherwise);
      }
    case Return(r) => if t.ReturnStatement? { OptionExact(vars, r, t.result); }
    case _ =>
  }

  lemma ForExact(vars: Symbols, s: Ast.Stmt, t: Statement)
    requires s.For? && t.ForStatement?
    requires CheckStatements(vars, s.body) == Success(t.body) <==> WellTypedStatements(vars, t.body) && ErasedAll(t.body) == BareAll(s.body)
    ensures CheckStatement(vars, s) == Success(t) <==> TypesStatement(vars, t, s)
  {
    CheckExprExact(vars, s.first, t.first);
    CheckExprExact(vars, s.last, t.last);
    OptionExact(vars, s.step, t.step);
    hide CheckExpr, CheckOptional, WellTyped, ErasedExpr, BareExpr, ErasedOption, BareOption, ErasedAll, BareAll, CheckStatements;
    hide WellTypedStatements;
  }

  lemma AssignExact(vars: Symbols, s: Ast.Stmt, t: Statement)
    requires s.Assign?
    ensures CheckStatement(vars, s) == Success(t) <==> TypesStatement(vars, t, s)
  {
    if t.Assignment? {
      CheckExprExact(vars, s.target, t.target);
      CheckExprExact(vars, s.value, t.value);
    }
  }

  lemma {:induction false} CheckAllExact(vars: Symbols, ss: seq<Ast.Stmt>, ts: seq<Statement>)
    ensures CheckStatements(vars, ss) == Success(ts) <==> WellTypedStatements(vars, ts) && ErasedAll(ts) == BareAll(ss)
    decreases ss, 0
  {
    if ss != [] && ts != [] {
      CheckStatementExact(vars, ss[0], ts[0]);
      CheckAllExact(vars, ss[1..], ts[1..]);
      FirstAndRest(Erased(ts[0]), ErasedAll(ts[1..]), Bare(ss[0]), BareAll(ss[1..]));
      assert ts == [ts[0]] + ts[1..];
      var a, r := CheckStatement(vars, ss[0]), CheckStatements(vars, ss[1..]);
      if a.Success? && r.Success? { FirstAndRest(a.value, r.value, ts[0], ts[1..]); }
    }
  }

  lemma {:induction false} CheckElsifsExact(vars: Symbols, es: seq<Ast.Elsif>, ts: seq<ElsifBranch>)
    ensures CheckElsifs(vars, es) == Success(ts) <==> WellTypedElsifs(vars, ts) && ErasedElsifs(ts) == BareElsifs(es)
    decreases es, 0
  {
    if es != [] && ts != [] {
      ConditionExact(vars, es[0].condition, ts[0].condition);
      CheckAllExact(vars, es[0].body, ts[0].body);
      CheckElsifsExact(vars, es[1..], ts[1..]);
      FirstAndRest(Ast.Elsif(ErasedExpr(ts[0].condition), ErasedAll(ts[0].body)), ErasedElsifs(ts[1..]),
                   Ast.Elsif(BareExpr(es[0].condition), BareAll(es[0].body)), BareElsifs(es[1..]));
      assert ts == [ts[0]] + ts[1..];
      var c, b, r := CheckCondition(vars, es[0].condition), CheckStatements(vars, es[0].body), CheckElsifs(vars, es[1..]);
      if c.Success? && b.Success? && r.Success? { FirstAndRest(ElsifBranch(c.value, b.value), r.value, ts[0], ts[1..]); }
    }
  }

  lemma {:induction false} CheckBranchesExact(vars: Symbols, bs: seq<Ast.Branch>, ts: seq<CaseBranch>)
    ensures CheckBranches(vars, bs) == Success(ts) <==> WellTypedBranches(vars, ts) && ErasedBranches(ts) == BareBranches(bs)
    decreases bs, 0
  {
    if bs != [] && ts != [] {
      CheckValuesExact(bs[0].values, ts[0].values);
      CheckAllExact(vars, bs[0].body, ts[0].body);
      CheckBranchesExact(vars, bs[1..], ts[1..]);
      FirstAndRest(Ast.Branch(ErasedValues(ts[0].values), ErasedAll(ts[0].body)), ErasedBranches(ts[1..]),
                   Ast.Branch(bs[0].values, BareAll(bs[0].body)), BareBranches(bs[1..]));
      assert ts == [ts[0]] + ts[1..];
      var v, b, r := CheckCaseValues(bs[0].values), CheckStatements(vars, bs[0].body), CheckBranches(vars, bs[1..]);
      if v.Success? && b.Success? && r.Success? { FirstAndRest(CaseBranch(v.value, b.value), r.value, ts[0], ts[1..]); }
    }
  }

  lemma {:induction false} CheckOtherwiseExact(vars: Symbols, o: Ast.Otherwise, t: ElseBranch)
    ensures CheckOtherwise(vars, o) == Success(t) <==> WellTypedElse(vars, t) && ErasedElse(t) == BareOtherwise(o)
    decreases o, 0
  {
    if o.Present? && t.ElseBody? {
      CheckAllExact(vars, o.body, t.body);
    }
  }

  // ---- Which types go together ---------------------------------------------------------

  const NUMERIC: set<DataType> := {Sint, Int, Dint, Lint}

  /** An assignment of two expressions that check is accepted exactly if their types are equal or both numeric. */
  lemma AssignmentChecksIff(vars: Symbols, target: Ast.Expression, value: Ast.Expression)
    ensures var t, v := CheckExpr(vars, target), CheckExpr(vars, value);
            CheckStatement(vars, Ast.Assign(target, value)).Success? <==>
              t.Success? && v.Success? && (t.value.ty == v.value.ty || (t.value.ty in NUMERIC && v.value.ty in NUMERIC))
  {
    hide CheckExpr;
  }

  /** The integers a numeric type holds. */
  predicate Holds(ty: DataType, v: int)
  {
    match ty
    case Sint => -128 <= v <= 127
    case Int => -32_768 <= v <= 32_767
    case Dint => -2_147_483_648 <= v <= 2_147_483_647
    case Lint => -9_223_372_036_854_775_808 <= v <= 9_223_372_036_854_775_807
    case _ => false
  }

  /** An integer literal gets the narrowest type that holds it. */
  lemma LiteralIsNarrowest(vars: Symbols, v: int)
    requires Holds(Lint, v)
    ensures var r := CheckExpr(vars, Ast.IntLit(v));
            && r.Success? && r.value.literal.IntegerLiteral? && r.value.literal.v == v
            && r.value.ty in NUMERIC && Holds(r.value.ty, v)
            && forall u <- NUMERIC :: Holds(u, v) ==> r.value.ty.SizeBytes() <= u.SizeBytes()
  {}

  /** The width of a numeric operand. */
  function NumericWidth(ty: DataType): nat
  {
    match ty
    case Sint => 1
    case Int => 2
    case Dint => 4
    case Lint => 8
    case _ => 0
  }

  /** Comparisons give BOOL; logical operators check exactly if both operands are BOOL, and give BOOL; arithmetic gives the
      narrowest of INT, DINT and LINT that is not narrower than a numeric operand. */
  lemma BinaryTypes(vars: Symbols, left: Ast.Expression, op: BinaryOp, right: Ast.Expression)
    requires CheckExpr(vars, left).Success? && CheckExpr(vars, right).Success?
    ensures var l, r := CheckExpr(vars, left).value.ty, CheckExpr(vars, right).value.ty;
            var b := CheckExpr(vars, Ast.BinaryExpr(left, op, right));
            if op in {Eq, Ne, Lt, Le, Gt, Ge} then b.Success? && b.value.ty == Bool
            else if op in {And, Or, Xor} then (b.Success? <==> l == Bool && r == Bool) && (b.Success? ==> b.value.ty == Bool)
            else
              && b.Success? && b.value.ty in {Int, Dint, Lint}
              && NumericWidth(l) <= NumericWidth(b.value.ty) && NumericWidth(r) <= NumericWidth(b.value.ty)
              && forall u <- {Int, Dint, Lint} :: NumericWidth(l) <= NumericWidth(u) && NumericWidth(r) <= NumericWidth(u) ==>
                   NumericWidth(b.value.ty) <= NumericWidth(u)
  {
    var l, r := CheckExpr(vars, left).value, CheckExpr(vars, right).value;
    assert CheckExpr(vars, Ast.BinaryExpr(left, op, right)).Success? <==> BinaryResultType(l.ty, op, r.ty).Success?;
  }
}
