/** Where the emitted code is not what the source means: exact conditions, and inputs on which it fails. */
module CompilerLimits {
  import opened Words
  import opened Wrappers
  import opened TypedTree
  import opened TypeChecker
  import opened SourceSemantics
  import opened BranchSemantics
  import opened Placement
  import Ir
  import opened WasmMachine
  import opened Lowering
  import opened ExprCorrect
  import opened StatementCorrect
  import opened Simulation
  import opened CompilerCorrect
  import opened JumpsRight

  /** Unary minus subtracts zero from its operand, so its code yields the operand itself. */
  lemma NegationRuns(vars: Symbols, e: TypedExpr, st: Store, code: Ir.Code, s: State)
    requires e.Unary? && e.unop == Neg && WellTyped(vars, e.operand) && ExprSupported(e.operand)
    requires s.Running? && Represents(vars, st, s.mem) && Ir.At(code, s.pc, LowerExpr(e))
    ensures Computes(code, s, LowerExpr(e), Eval(e.operand, st))
  {
    var X, v := LowerExpr(e.operand), Eval(e.operand, st);
    assert LowerExpr(e) == X + [Ir.I32Const(0)] + [Ir.I32Sub];
    hide Step, StepN, Represents, LowerExpr, Eval, WellTyped, ExprSupported, Computes, Ir.At;
    Ir.AtAppend(code, s.pc, X + [Ir.I32Const(0)], [Ir.I32Sub]);
    Ir.AtAppend(code, s.pc, X, [Ir.I32Const(0)]);
    ExprRuns(vars, e.operand, st, code, s);
    if v.Val? {
      SubtractZero(code, s, X, v.v);
    } else {
      TrapContinues(code, s, X, [Ir.I32Const(0), Ir.I32Sub], v);
      assert X + [Ir.I32Const(0), Ir.I32Sub] == LowerExpr(e);
    }
  }

  lemma SubtractZero(code: Ir.Code, s: State, X: Ir.Code, v: I32)
    requires s.Running? && Computes(code, s, X, Val(v))
    requires Ir.At(code, s.pc + |X|, [Ir.I32Const(0)]) && Ir.At(code, s.pc + |X| + 1, [Ir.I32Sub])
    ensures Computes(code, s, X + [Ir.I32Const(0)] + [Ir.I32Sub], Val(v))
  {
    hide Step, StepN;
    var s1 := Pushed(s, X, v);
    var s2 := Pushed(s1, [Ir.I32Const(0)], 0);
    Consts(code, s1, 0);
    BinaryStep(code, s2, Sub, Dint, s.stack, v, 0);
    Then(code, s, |X|, 1);
    ThenOne(code, s, |X| + 1);
    NegatedFixpoints(v);
  }

  /** That is the negated value exactly for 0 and the least 32-bit number. */
  lemma NegationIsRightIff(vars: Symbols, e: TypedExpr, st: Store, code: Ir.Code, s: State)
    requires e.Unary? && e.unop == Neg && WellTyped(vars, e.operand) && ExprSupported(e.operand)
    requires s.Running? && Represents(vars, st, s.mem) && Ir.At(code, s.pc, LowerExpr(e)) && Eval(e.operand, st).Val?
    ensures Computes(code, s, LowerExpr(e), Eval(e, st)) <==> Eval(e.operand, st).v in {0, I32_MIN}
  {
    NegationRuns(vars, e, st, code, s);
    var v := Eval(e.operand, st).v;
    var w := Wrap32(-(v as int));
    assert Eval(e, st) == Val(w);
    hide LowerExpr, StepN, Represents, Eval, WellTyped, ExprSupported, Wrap32;
    NegatedFixpoints(v);
    assert (s.stack + [v])[|s.stack|] == v && (s.stack + [w])[|s.stack|] == w;
  }

  lemma NegatedFixpoints(v: I32)
    ensures Wrap32(v - 0) == v
    ensures Wrap32(-(v as int)) == v <==> v in {0, I32_MIN}
  {}

  // ---- Array lower bounds ---------------------------------------------------------

  const WORDS: int := 0x1_0000_0000

  /** Wrapping is equality modulo 2^32. */
  lemma WrapsToIff(x: int, a: I32)
    ensures Wrap32(x) == a <==> (x - a) % WORDS == 0
  {
    var q := x / WORDS;
    assert x == WORDS * q + x % WORDS;
    if (x - a) % WORDS == 0 {
      var k := (x - a) / WORDS;
      assert x == WORDS * k + a;
    }
  }

  lemma WrapOfSum(x: I32, y: int)
    ensures Wrap32(x + Wrap32(y)) == Wrap32(x + y)
  {
    var w := Wrap32(y);
    WrapsToIff(y, w);
    var k := (y - w) / WORDS;
    assert y == w + WORDS * k;
    WrapsToIff(x + w, Wrap32(x + w));
    var j := (x + w - Wrap32(x + w)) / WORDS;
    assert x + y - Wrap32(x + w) == WORDS * (j + k);
    WrapsToIff(x + y, Wrap32(x + w));
  }

  /** The code for an array element adds index times size to the base and forgets the lower bound. It yields the
      element's address exactly if the lower bound times the size is a multiple of 2^32: for zero, not for one. */
  lemma ElementAddressIsRightIff(vars: Symbols, e: TypedExpr, st: Store, code: Ir.Code, s: State, a: I32)
    requires e.ArrayAccess? && e.base.Variable? && WellTyped(vars, e) && e.ty.IsWord() && ExprSupported(e.index)
    requires s.Running? && Represents(vars, st, s.mem) && Ir.At(code, s.pc, LowerElement(e))
    requires Eval(e.index, st).Val? && IsCell(vars, Cell(e.base.name, Eval(e.index, st).v))
    requires a == Address(vars, Cell(e.base.name, Eval(e.index, st).v))
    ensures Computes(code, s, LowerElement(e), Val(a)) <==> e.base.ty.lower * e.elementSize % WORDS == 0
  {
    var i := Eval(e.index, st).v;
    ElementCode(vars, e, st, code, s);
    assert Placed(vars);
    hide StepN, LowerElement, ElementValue, Represents, Placed, Eval, Address, WellTyped, ExprSupported, IsCell;
    ElementComputed(vars, e, i, a);
    var v := ElementValue(e, Val(i)).v;
    assert (s.stack + [v])[|s.stack|] == v && (s.stack + [a])[|s.stack|] == a;
  }

  lemma ElementFormula(e: TypedExpr, i: I32)
    requires e.ArrayAccess? && e.base.Variable?
    ensures ElementValue(e, Val(i)) == Val(Wrap32(CastI32(e.base.offset) + Wrap32(i * CastI32(e.elementSize))))
  {
    hide Wrap32;
  }

  lemma ElementPlace(vars: Symbols, e: TypedExpr, i: I32)
    requires e.ArrayAccess? && e.base.Variable? && WellTyped(vars, e) && e.ty.IsWord() && Placed(vars)
    requires IsCell(vars, Cell(e.base.name, i))
    ensures CastI32(e.elementSize) == e.elementSize && CastI32(e.base.offset) == e.base.offset
    ensures Address(vars, Cell(e.base.name, i)) == e.base.offset + (i - e.base.ty.lower) * e.elementSize
  {
    WordCellInside(vars, Cell(e.base.name, i));
  }

  lemma ElementComputed(vars: Symbols, e: TypedExpr, i: I32, a: I32)
    requires e.ArrayAccess? && e.base.Variable? && WellTyped(vars, e) && e.ty.IsWord() && Placed(vars)
    requires IsCell(vars, Cell(e.base.name, i)) && a == Address(vars, Cell(e.base.name, i))
    ensures ElementValue(e, Val(i)).Val?
    ensures ElementValue(e, Val(i)).v == a <==> e.base.ty.lower * e.elementSize % WORDS == 0
  {
    var offset, w, lower := e.base.offset, e.elementSize, e.base.ty.lower;
    hide Wrap32, CastI32, ElementValue, Address, WellTyped, Placed, IsCell;
    ElementPlace(vars, e, i);
    ElementFormula(e, i);
    WrapOfSum(offset, i * w);
    Spread(i, lower, w);
    WrapsToIff(offset + i * w, a);
  }

  lemma Spread(i: int, lower: int, w: int)
    ensures (i - lower) * w == i * w - lower * w
  {}

  // ---- Labels of conditionals ------------------------------------------------------

  function ConditionAt(s: Statement, i: nat): TypedExpr
    requires s.IfStatement? && i <= |s.elsifs|
  {
    if i == 0 then s.condition else s.elsifs[i - 1].condition
  }

  function BodyAt(s: Statement, i: nat): seq<Statement>
    requires s.IfStatement? && i <= |s.elsifs|
  {
    if i == 0 then s.thenBranch else s.elsifs[i - 1].body
  }

  lemma OutAdds(o: Outcome, a: nat, b: nat)
    ensures Out(Out(o, a), b) == Out(o, a + b)
  {}

  /** The THEN branch of an IF stands inside one label, its k-th ELSIF branch inside k + 1. */
  lemma {:induction false} InsideBranch(s: Statement, st: Store, fuel: nat, depth: nat, i: nat)
    requires s.IfStatement? && i <= |s.elsifs|
    requires forall j :: 0 <= j < i ==> Eval(ConditionAt(s, j), st) == Val(0)
    requires Eval(ConditionAt(s, i), st).Val? && Eval(ConditionAt(s, i), st).v != 0
    ensures Run(s, st, fuel, depth) == Out(RunAll(BodyAt(s, i), st, fuel, depth), i + 1)
    decreases i
  {
    hide Out;
    if i > 0 {
      assert Eval(ConditionAt(s, 0), st) == Val(0);
      forall j | 0 <= j < i - 1 ensures Eval(ConditionAt(NextElsif(s), j), st) == Val(0) {
        assert Eval(ConditionAt(s, j + 1), st) == Val(0);
      }
      InsideBranch(NextElsif(s), st, fuel, depth, i - 1);
      OutAdds(RunAll(BodyAt(s, i), st, fuel, depth), i, 1);
    }
  }

  /** The ELSE branch stands inside one label and one more for each ELSIF. */
  lemma {:induction false} InsideElse(s: Statement, st: Store, fuel: nat, depth: nat)
    requires s.IfStatement? && forall j :: 0 <= j <= |s.elsifs| ==> Eval(ConditionAt(s, j), st) == Val(0)
    ensures Run(s, st, fuel, depth) == Out(RunElse(s.otherwise, st, fuel, depth), |s.elsifs| + 1)
    decreases |s.elsifs|
  {
    hide Out, RunElse;
    assert Eval(ConditionAt(s, 0), st) == Val(0);
    if s.elsifs != [] {
      var next := NextElsif(s);
      forall j | 0 <= j <= |next.elsifs| ensures Eval(ConditionAt(next, j), st) == Val(0) {
        assert Eval(ConditionAt(s, j + 1), st) == Val(0);
      }
      InsideElse(next, st, fuel, depth);
      OutAdds(RunElse(s.otherwise, st, fuel, depth), |s.elsifs|, 1);
    }
  }

  /** How many of the branches list values. */
  function ListedCount(bs: seq<CaseBranch>): nat
  {
    if bs == [] then 0 else (if bs[0].values == [] then 0 else 1) + ListedCount(bs[1..])
  }

  /** The n-th branch with values of a CASE stands inside n labels. */
  lemma {:induction false} InsideCaseBranch(bs: seq<CaseBranch>, e: ElseBranch, v: I32, st: Store, fuel: nat, depth: nat, i: nat)
    requires i < |bs| && v in bs[i].values && forall j :: 0 <= j < i ==> v !in bs[j].values
    ensures RunBranches(bs, e, v, st, fuel, depth) == Out(RunAll(bs[i].body, st, fuel, depth), ListedCount(bs[..i]) + 1)
    decreases i
  {
    hide Out;
    if i > 0 {
      InsideCaseBranch(bs[1..], e, v, st, fuel, depth, i - 1);
      assert bs[..i][1..] == bs[1..][..i - 1];
      OutAdds(RunAll(bs[i].body, st, fuel, depth), ListedCount(bs[1..][..i - 1]) + 1, if bs[0].values == [] then 0 else 1);
    } else {
      assert bs[..0] == [];
    }
  }

  /** Its ELSE branch stands inside as many labels as there are branches with values. */
  lemma {:induction false} InsideCaseElse(bs: seq<CaseBranch>, e: ElseBranch, v: I32, st: Store, fuel: nat, depth: nat)
    requires forall j :: 0 <= j < |bs| ==> v !in bs[j].values
    ensures RunBranches(bs, e, v, st, fuel, depth) == Out(RunElse(e, st, fuel, depth), ListedCount(bs))
    decreases |bs|
  {
    hide RunElse;
    if bs != [] {
      InsideCaseElse(bs[1..], e, v, st, fuel, depth);
      OutAdds(RunElse(e, st, fuel, depth), ListedCount(bs[1..]), if bs[0].values == [] then 0 else 1);
    }
  }

  // ---- Loops whose jumps go elsewhere ------------------------------------------------

  /** Code that stands anywhere, of a statement that run by branches never ends, never ends. */
  lemma NeverEnds(vars: Symbols, s: Statement, st: Store, depth: nat, temp: nat, code: Ir.Code, m: State, n: nat)
    requires Ready(vars, s, st, depth, temp, code, m) && forall fuel :: Run(s, st, fuel, depth) == OutOfFuel
    ensures StepN(code, m, n).Running?
  {
    hide Ready, Run;
    var k := StatementRuns(vars, s, st, n, depth, temp, code, m);
    StillRunning(code, m, n, k);
  }

  lemma Single(s: Statement, st: Store, fuel: nat, depth: nat)
    ensures ExecAll([s], st, fuel) == Exec(s, st, fuel) && RunAll([s], st, fuel, depth) == Run(s, st, fuel, depth)
  {
    assert ExecAll([s][1..], st, fuel) == Normal(st);
  }

  /** A REPEAT whose body is CONTINUE, run by branches, never ends, whatever its condition. */
  lemma {:induction false} RepeatContinueNeverEnds(until: TypedExpr, st: Store, fuel: nat, depth: nat)
    ensures Run(RepeatStatement([ContinueStatement], until), st, fuel, depth) == OutOfFuel
  {
    if fuel > 0 {
      RepeatContinueNeverEnds(until, st, fuel - 1, depth);
      Single(ContinueStatement, st, fuel - 1, depth + 1);
    }
  }

  /** What it means. */
  lemma {:induction false} RepeatContinueMeans(until: TypedExpr, st: Store, fuel: nat)
    ensures var v := Eval(until, st);
            Exec(RepeatStatement([ContinueStatement], until), st, fuel) ==
              if fuel == 0 || v == Val(0) then OutOfFuel else if v.Val? then Normal(st) else Failed(v, st)
  {
    if fuel > 0 {
      RepeatContinueMeans(until, st, fuel - 1);
      Single(ContinueStatement, st, fuel - 1, 1);
    }
  }

  /** So its code does what it means exactly if the condition is false. */
  lemma RepeatContinueRightIff(vars: Symbols, until: TypedExpr, st: Store, mem: Memory)
    requires var body := [RepeatStatement([ContinueStatement], until)];
             WellTypedStatements(vars, body) && AllSupported(vars, body) && Represents(vars, st, mem)
    requires !Eval(until, st).Undefined?
    ensures Right(vars, [RepeatStatement([ContinueStatement], until)], st, mem) <==> Eval(until, st) == Val(0)
  {
    hide Represents, Eval, WellTypedStatements, AllSupported, Exec, Run, ExecAll, RunAll, SameEnd;
    var s := RepeatStatement([ContinueStatement], until);
    forall fuel: nat
      ensures RunAll([s], st, fuel, 0) == OutOfFuel && ExecAll([s], st, fuel) == Exec(s, st, fuel)
      ensures var v := Eval(until, st);
              Exec(s, st, fuel) ==
                if fuel == 0 || v == Val(0) then OutOfFuel else if v.Val? then Normal(st) else Failed(v, st)
    {
      Single(s, st, fuel, 0);
      RepeatContinueNeverEnds(until, st, fuel, 0);
      RepeatContinueMeans(until, st, fuel);
    }
    RightIff(vars, [s], st, mem);
    assert ExecAll([s], st, 1).OutOfFuel? <==> Eval(until, st) == Val(0);
  }

  /** A FOR whose body is CONTINUE, run by branches, never ends unless it has no iteration at all. */
  lemma {:induction false} ForContinueNeverEnds(s: Statement, st: Store, fuel: nat, depth: nat)
    requires s.ForStatement? && s.body == [ContinueStatement] && Eval(s.last, st).Val?
    requires Get(st, Cell(s.variable, 0)) <= Eval(s.last, st).v
    ensures RunIterations(s, st, fuel, depth) == OutOfFuel
    decreases fuel
  {
    if fuel > 0 {
      ForContinueNeverEnds(s, st, fuel - 1, depth);
      Single(ContinueStatement, st, fuel - 1, depth + 1);
    }
  }

  /** So wherever such loops stand, their code never ends. */
  lemma RepeatContinueRunsForever(vars: Symbols, s: Statement, st: Store, depth: nat, temp: nat, code: Ir.Code, m: State, n: nat)
    requires Ready(vars, s, st, depth, temp, code, m) && s.RepeatStatement? && s.body == [ContinueStatement]
    ensures StepN(code, m, n).Running?
  {
    hide Ready, Run;
    forall fuel ensures Run(s, st, fuel, depth) == OutOfFuel { RepeatContinueNeverEnds(s.until, st, fuel, depth); }
    NeverEnds(vars, s, st, depth, temp, code, m, n);
  }

  lemma ForContinueRunsForever(vars: Symbols, s: Statement, st: Store, depth: nat, temp: nat, code: Ir.Code, m: State, n: nat)
    requires Ready(vars, s, st, depth, temp, code, m) && s.ForStatement? && s.body == [ContinueStatement]
    requires var a := Eval(s.first, st);
             a.Val? && var b := Eval(s.last, st[Cell(s.variable, 0) := a.v]); b.Val? && a.v <= b.v
    ensures StepN(code, m, n).Running?
  {
    hide Ready, RunIterations, Eval;
    var c := Cell(s.variable, 0);
    forall fuel ensures Run(s, st, fuel, depth) == OutOfFuel {
      var st1 := st[c := Eval(s.first, st).v];
      assert Get(st1, c) == Eval(s.first, st).v;
      ForContinueNeverEnds(s, st1, fuel, depth);
    }
    NeverEnds(vars, s, st, depth, temp, code, m, n);
  }

  /** WHILE c DO IF d THEN EXIT; END_IF; END_WHILE */
  function ExitInIf(c: TypedExpr, d: TypedExpr): Statement
  {
    WhileStatement(c, [IfStatement(d, [ExitStatement], [], NoElse)])
  }

  lemma {:induction false} ExitInIfMeans(c: TypedExpr, d: TypedExpr, st: Store, fuel: nat)
    ensures var s, v, w := ExitInIf(c, d), Eval(c, st), Eval(d, st);
            if fuel == 0 then Exec(s, st, fuel) == Run(s, st, fuel, 0) == OutOfFuel
            else if !v.Val? then Exec(s, st, fuel) == Run(s, st, fuel, 0) == Failed(v, st)
            else if v.v == 0 then Exec(s, st, fuel) == Run(s, st, fuel, 0) == Normal(st)
            else if !w.Val? then Exec(s, st, fuel) == Run(s, st, fuel, 0) == Failed(w, st)
            else Run(s, st, fuel, 0) == OutOfFuel && Exec(s, st, fuel) == if w.v == 0 then OutOfFuel else Normal(st)
  {
    hide Eval;
    if fuel > 0 {
      ExitInIfMeans(c, d, st, fuel - 1);
      var conditional := IfStatement(d, [ExitStatement], [], NoElse);
      Single(conditional, st, fuel - 1, 1);
      Single(ExitStatement, st, fuel - 1, 1);
    }
  }

  /** The EXIT goes back to the head of the loop: the code does what the source means exactly if the EXIT is not reached. */
  lemma ExitInIfRightIff(vars: Symbols, c: TypedExpr, d: TypedExpr, st: Store, mem: Memory)
    requires WellTypedStatements(vars, [ExitInIf(c, d)]) && AllSupported(vars, [ExitInIf(c, d)]) && Represents(vars, st, mem)
    requires !Eval(c, st).Undefined? && !Eval(d, st).Undefined?
    ensures Right(vars, [ExitInIf(c, d)], st, mem) <==>
              !(Eval(c, st).Val? && Eval(c, st).v != 0 && Eval(d, st).Val? && Eval(d, st).v != 0)
  {
    hide Eval, WellTypedStatements, AllSupported, Exec, Run, ExecAll, RunAll, ExitInIf;
    var s := ExitInIf(c, d);
    forall fuel: nat
      ensures ExecAll([s], st, fuel) == Exec(s, st, fuel) && RunAll([s], st, fuel, 0) == Run(s, st, fuel, 0)
    {
      Single(s, st, fuel, 0);
    }
    forall fuel: nat { ExitInIfMeans(c, d, st, fuel); }
    assert ExecAll([s], st, 1).OutOfFuel? <==> (Eval(c, st).Val? && Eval(c, st).v != 0 && Eval(d, st) == Val(0));
    RightIff(vars, [s], st, mem);
  }

  // ---- Inputs on which the code goes wrong ----------------------------------------------

  const ALWAYS: TypedExpr := Literal(BoolLiteral(true), Bool)

  /** FOR i := 0 TO 3 DO body END_FOR */
  function CountToThree(offset: nat, body: seq<Statement>): Statement
  {
    ForStatement("i", offset, Literal(IntegerLiteral(0, 8), Sint), Literal(IntegerLiteral(3, 8), Sint), None, body)
  }

  /** A body that ends with the step, whatever the store, makes it count to four. */
  lemma {:induction false} CountsUp(s: Statement, st: Store, i: I32, fuel: nat)
    requires s.ForStatement? && s == CountToThree(s.varOffset, s.body) && 0 <= i <= 4 && fuel >= 5 - i
    requires forall st1, f :: ExecAll(s.body, st1, f) == Continued(st1)
    ensures Iterate(s, st[Cell("i", 0) := i], fuel) == Normal(st[Cell("i", 0) := 4])
    decreases fuel
  {
    var c, st1 := Cell("i", 0), st[Cell("i", 0) := i];
    assert Eval(s.last, st1) == Val(3) && Get(st1, c) == i;
    if i <= 3 {
      assert ExecAll(s.body, st1, fuel - 1) == Continued(st1);
      assert EvalStep(s.step, st1) == Val(1) && Wrap32(i + 1) == i + 1;
      assert st1[c := i + 1] == st[c := i + 1];
      CountsUp(s, st, i + 1, fuel - 1);
    }
  }

  lemma Alone(vars: Symbols, s: Statement)
    requires WellTypedStatement(vars, s) && Supported(vars, s)
    ensures WellTypedStatements(vars, [s]) && AllSupported(vars, [s])
  {}

  /** REPEAT CONTINUE; UNTIL TRUE END_REPEAT means one iteration, and its code runs forever. */
  lemma RepeatContinueInput(vars: Symbols, st: Store, mem: Memory, n: nat)
    requires Represents(vars, st, mem)
    ensures var body := [RepeatStatement([ContinueStatement], ALWAYS)];
            ExecAll(body, st, 1) == Normal(st) && MachineAfter(body, mem, n).Running?
  {
    var s := RepeatStatement([ContinueStatement], ALWAYS);
    assert Eval(ALWAYS, st) == Val(1);
    Alone(vars, ContinueStatement);
    Alone(vars, s);
    hide Represents, Exec, Run, ExecAll, RunAll, Eval, WellTypedStatements, AllSupported;
    RepeatContinueMeans(ALWAYS, st, 1);
    forall fuel: nat ensures RunAll([s], st, fuel, 0) == OutOfFuel && ExecAll([s], st, fuel) == Exec(s, st, fuel) {
      Single(s, st, fuel, 0);
      RepeatContinueNeverEnds(ALWAYS, st, fuel, 0);
    }
    RunsForever(vars, [s], st, mem, n);
  }

  /** FOR i := 0 TO 3 DO CONTINUE; END_FOR means counting to four, and its code runs forever. */
  lemma ForContinueInput(vars: Symbols, st: Store, mem: Memory, n: nat)
    requires "i" in vars && vars["i"].ty == Dint && Represents(vars, st, mem)
    ensures var body := [CountToThree(vars["i"].offset, [ContinueStatement])];
            ExecAll(body, st, 5) == Normal(st[Cell("i", 0) := 4]) && MachineAfter(body, mem, n).Running?
  {
    var s := CountToThree(vars["i"].offset, [ContinueStatement]);
    var st1 := st[Cell("i", 0) := 0];
    Alone(vars, ContinueStatement);
    Alone(vars, s);
    assert Eval(s.first, st) == Val(0) && Eval(s.last, st1) == Val(3) && Get(st1, Cell("i", 0)) == 0;
    forall st2, f ensures ExecAll(s.body, st2, f) == Continued(st2) { Single(ContinueStatement, st2, f, 0); }
    CountsUp(s, st, 0, 5);
    hide Represents, RunAll, ExecAll, WellTypedStatements, AllSupported, Iterate, RunIterations, Eval;
    forall fuel: nat ensures RunAll([s], st, fuel, 0) == OutOfFuel && ExecAll([s], st, fuel) == Exec(s, st, fuel) {
      Single(s, st, fuel, 0);
      ForContinueNeverEnds(s, st1, fuel, 0);
    }
    RunsForever(vars, [s], st, mem, n);
  }

  /** WHILE TRUE DO IF TRUE THEN EXIT; END_IF; END_WHILE ends at once, and its code runs forever. */
  lemma ExitInIfInput(vars: Symbols, st: Store, mem: Memory, n: nat)
    requires Represents(vars, st, mem)
    ensures ExecAll([ExitInIf(ALWAYS, ALWAYS)], st, 1) == Normal(st)
    ensures MachineAfter([ExitInIf(ALWAYS, ALWAYS)], mem, n).Running?
  {
    var s := ExitInIf(ALWAYS, ALWAYS);
    assert Eval(ALWAYS, st) == Val(1);
    Alone(vars, ExitStatement);
    Alone(vars, s.body[0]);
    Alone(vars, s);
    hide Represents, Exec, Run, ExecAll, RunAll, Eval, WellTypedStatements, AllSupported, ExitInIf;
    forall fuel: nat ensures RunAll([s], st, fuel, 0) == OutOfFuel && ExecAll([s], st, fuel) == Exec(s, st, fuel) {
      Single(s, st, fuel, 0);
      ExitInIfMeans(ALWAYS, ALWAYS, st, fuel);
    }
    ExitInIfMeans(ALWAYS, ALWAYS, st, 1);
    RunsForever(vars, [s], st, mem, n);
  }

  /** WHILE TRUE DO IF TRUE THEN CONTINUE; END_IF; RETURN; END_WHILE */
  function ContinueInIf(): Statement
  {
    WhileStatement(ALWAYS, [IfStatement(ALWAYS, [ContinueStatement], [], NoElse), ReturnStatement(None)])
  }

  /** Something stands behind the IF that the CONTINUE leaves: the program runs forever, and its code returns. */
  lemma ContinueInIfInput(vars: Symbols, st: Store, mem: Memory, fuel: nat)
    requires Represents(vars, st, mem)
    ensures ExecAll([ContinueInIf()], st, fuel) == OutOfFuel
    ensures exists n :: Shows(vars, MachineAfter([ContinueInIf()], mem, n), Returned(st), ProcessImage(mem))
  {
    var s := ContinueInIf();
    assert Eval(ALWAYS, st) == Val(1);
    ContinueInIfIsTyped(vars);
    ContinueInIfMeans(st, fuel);
    ContinueInIfReturns(st);
    hide Represents, ExecAll, RunAll, Eval, WellTypedStatements, AllSupported, ContinueInIf;
    Single(s, st, fuel, 0);
    Single(s, st, 1, 0);
    CodeAgrees(vars, [s], st, mem, 1);
  }

  lemma ContinueInIfIsTyped(vars: Symbols)
    ensures WellTypedStatements(vars, [ContinueInIf()]) && AllSupported(vars, [ContinueInIf()])
  {
    var s := ContinueInIf();
    Alone(vars, ContinueStatement);
    Alone(vars, ReturnStatement(None));
    assert s.body[1..] == [ReturnStatement(None)];
    assert WellTypedStatement(vars, s.body[0]) && Supported(vars, s.body[0]);
    Alone(vars, s);
  }

  lemma ContinueInIfReturns(st: Store)
    ensures Run(ContinueInIf(), st, 1, 0) == Returned(st)
  {
    var body := ContinueInIf().body;
    assert Eval(ALWAYS, st) == Val(1);
    Single(ContinueStatement, st, 0, 1);
    assert body[1..] == [ReturnStatement(None)];
    Single(ReturnStatement(None), st, 0, 1);
    assert Run(body[0], st, 0, 1) == Normal(st);
  }

  lemma {:induction false} ContinueInIfMeans(st: Store, fuel: nat)
    ensures Exec(ContinueInIf(), st, fuel) == OutOfFuel
  {
    if fuel > 0 {
      ContinueInIfMeans(st, fuel - 1);
      assert Eval(ALWAYS, st) == Val(1);
      Single(ContinueStatement, st, fuel - 1, 1);
      assert Exec(ContinueInIf().body[0], st, fuel - 1) == Continued(st);
    }
  }

  // ---- Inputs on which it is right although the jump goes elsewhere -----------------------

  /** REPEAT IF TRUE THEN CONTINUE; END_IF; UNTIL TRUE END_REPEAT: the CONTINUE leaves only the IF, behind which the
      condition is evaluated as the source means. */
  lemma ContinueEndsRepeatInput(vars: Symbols, st: Store, mem: Memory)
    requires Represents(vars, st, mem)
    ensures var body := [RepeatStatement([IfStatement(ALWAYS, [ContinueStatement], [], NoElse)], ALWAYS)];
            && Compilable(vars, body) && ExecAll(body, st, 1) == Normal(st)
            && exists n :: Shows(vars, MachineAfter(body, mem, n), Normal(st), ProcessImage(mem))
  {
    var conditional := IfStatement(ALWAYS, [ContinueStatement], [], NoElse);
    var s := RepeatStatement([conditional], ALWAYS);
    assert Eval(ALWAYS, st) == Val(1);
    Alone(vars, ContinueStatement);
    Alone(vars, conditional);
    Alone(vars, s);
    Single(ContinueStatement, st, 0, 1);
    Single(conditional, st, 0, 1);
    Single(s, st, 1, 0);
    AloneIsPlaced(ContinueStatement, PROGRAM.InLoop(2, 3).InIf(), 4, 1);
    AloneIsPlaced(conditional, PROGRAM.InLoop(2, 3), 4, 1);
    AloneIsPlaced(s, PROGRAM, 2, 0);
    hide Represents, ExecAll, WellTypedStatements, AllSupported, AllPlaced, Eval;
    CompiledAgrees(vars, [s], st, mem, 1);
  }

  lemma AloneIsPlaced(s: Statement, p: Points, free: nat, depth: nat)
    ensures AllPlaced([s], p, free, depth) <==> JumpsPlaced(s, p, free, depth)
  {}

  /** WHILE TRUE DO WHILE TRUE DO EXIT; END_WHILE; END_WHILE */
  function ExitOfInner(): Statement { WhileStatement(ALWAYS, [WhileStatement(ALWAYS, [ExitStatement])]) }

  /** The EXIT goes to the head of the outer loop, where leaving the inner loop leads: both run forever. */
  lemma ExitOfInnerInput(vars: Symbols, st: Store, mem: Memory, fuel: nat)
    requires Represents(vars, st, mem)
    ensures Compilable(vars, [ExitOfInner()])
    ensures ExecAll([ExitOfInner()], st, fuel) == OutOfFuel && MachineAfter([ExitOfInner()], mem, fuel).Running?
  {
    var s := ExitOfInner();
    Alone(vars, ExitStatement);
    Alone(vars, s.body[0]);
    Alone(vars, s);
    AloneIsPlaced(ExitStatement, PROGRAM.InLoop(2, 2).InLoop(3, 3), 4, 2);
    AloneIsPlaced(s.body[0], PROGRAM.InLoop(2, 2), 3, 1);
    AloneIsPlaced(s, PROGRAM, 2, 0);
    ExitOfInnerMeans(st, fuel);
    Single(s, st, fuel, 0);
    hide Represents, ExecAll, WellTypedStatements, AllSupported, AllPlaced;
    CompiledAgrees(vars, [s], st, mem, fuel);
  }

  lemma {:induction false} ExitOfInnerMeans(st: Store, fuel: nat)
    ensures Exec(ExitOfInner(), st, fuel) == OutOfFuel
  {
    if fuel > 0 {
      ExitOfInnerMeans(st, fuel - 1);
      assert Eval(ALWAYS, st) == Val(1);
      var inner := ExitOfInner().body[0];
      Single(inner, st, fuel - 1, 1);
      if fuel > 1 {
        Single(ExitStatement, st, fuel - 2, 2);
        assert Exec(inner, st, fuel - 1) == Normal(st);
      }
    }
  }

  /** FOR i := 0 TO 3 DO IF TRUE THEN CONTINUE; END_IF; END_FOR: behind the IF comes the step; both count to four. */
  lemma ContinueEndsForInput(vars: Symbols, st: Store, mem: Memory)
    requires "i" in vars && vars["i"].ty == Dint && Represents(vars, st, mem)
    ensures var body := [CountToThree(vars["i"].offset, [IfStatement(ALWAYS, [ContinueStatement], [], NoElse)])];
            var end := Normal(st[Cell("i", 0) := 4]);
            && Compilable(vars, body) && ExecAll(body, st, 5) == end
            && exists n :: Shows(vars, MachineAfter(body, mem, n), end, ProcessImage(mem))
  {
    var conditional := IfStatement(ALWAYS, [ContinueStatement], [], NoElse);
    var s := CountToThree(vars["i"].offset, [conditional]);
    Alone(vars, ContinueStatement);
    Alone(vars, conditional);
    Alone(vars, s);
    AloneIsPlaced(ContinueStatement, PROGRAM.InLoop(2, 3).InIf(), 4, 1);
    AloneIsPlaced(conditional, PROGRAM.InLoop(2, 3), 4, 1);
    AloneIsPlaced(s, PROGRAM, 2, 0);
    forall st1, f ensures ExecAll(s.body, st1, f) == Continued(st1) {
      assert Eval(ALWAYS, st1) == Val(1);
      Single(ContinueStatement, st1, f, 1);
      Single(conditional, st1, f, 1);
    }
    assert Eval(s.first, st) == Val(0);
    CountsUp(s, st, 0, 5);
    Single(s, st, 5, 0);
    hide Represents, ExecAll, WellTypedStatements, AllSupported, AllPlaced, Iterate;
    CompiledAgrees(vars, [s], st, mem, 5);
  }
}
