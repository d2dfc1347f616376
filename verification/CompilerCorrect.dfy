/** What compiled programs do, stated over whole calls of the step function and whole runs of cycles. */
module CompilerCorrect {
  import opened Words
  import opened TypedTree
  import opened TypeChecker
  import opened Layout
  import opened SourceSemantics
  import opened BranchSemantics
  import opened Placement
  import Ast
  import Ir
  import opened WasmMachine
  import opened Lowering
  import opened Nesting
  import opened ExprCorrect
  import opened StatementCorrect
  import opened Simulation

  // ---- One call of the step function -------------------------------------------

  /** The code of the step function of a program body. */
  function StepCode(body: seq<Statement>): Ir.Code { LowerAll(body, 0, 0) }

  /** The machine `n` steps after the step function was called on memory `mem`. */
  function MachineAfter(body: seq<Statement>, mem: Memory, n: nat): State
  {
    StepN(StepCode(body), Start(mem, TempsAll(body)), n)
  }

  /** A body of the supported fragment in which every EXIT and CONTINUE is well placed. */
  predicate InFragment(vars: Symbols, body: seq<Statement>)
  {
    AllSupported(vars, body) && AllPlaced(body, PROGRAM, 2, 0)
  }

  ghost predicate Compilable(vars: Symbols, body: seq<Statement>)
  {
    WellTypedStatements(vars, body) && InFragment(vars, body)
  }

  /** The halted machine `t` shows what the outcome `o` says, and the process image is as it was. A branch out of all
      constructs ends the function. */
  ghost predicate Shows(vars: Symbols, t: State, o: Outcome, io: seq<Byte>)
  {
    match o
    case Normal(st) => t.Done? && MemoryIs(vars, st, t.mem, io)
    case Returned(st) => t.Done? && MemoryIs(vars, st, t.mem, io)
    case Jumped(st, target) => t.Done? && MemoryIs(vars, st, t.mem, io)
    case Trapped(st) => t.Trapped? && MemoryIs(vars, st, t.mem, io)
    case NoMeaning => true
    case _ => false
  }

  lemma Simulated(vars: Symbols, body: seq<Statement>, st: Store, mem: Memory, fuel: nat) returns (n: nat)
    requires WellTypedStatements(vars, body) && AllSupported(vars, body) && Represents(vars, st, mem)
    ensures var o, t := RunAll(body, st, fuel, 0), MachineAfter(body, mem, n);
            if o.OutOfFuel? then n >= fuel && t.Running? else Shows(vars, t, o, ProcessImage(mem))
  {
    var code, m := StepCode(body), Start(mem, TempsAll(body));
    assert Ir.At(code, 0, code) by { assert code[0..|code|] == code; }
    BranchesStayInside(body, st, fuel, 0);
    hide LowerAll, Step, StepN, RunAll, WellTypedStatements, AllSupported, Represents, Ends, Ir.At;
    n := AllRun(vars, body, st, fuel, 0, 0, code, m);
    n := FunctionEnds(vars, code, m, RunAll(body, st, fuel, 0), fuel, n);
  }

  /** From the end of the body, or a branch out of it, to the end of the function. */
  lemma FunctionEnds(vars: Symbols, code: Ir.Code, m: State, o: Outcome, fuel: nat, n: nat) returns (k: nat)
    requires m.Running? && m.pc == 0 && m.labels == [] && Ends(vars, code, m, After(m, |code|), o, fuel, n)
    requires o.Jumped? ==> o.target == 0
    ensures if o.OutOfFuel? then k >= fuel && StepN(code, m, k).Running?
            else Shows(vars, StepN(code, m, k), o, ProcessImage(m.mem))
  {
    hide Step, StepN, MemoryIs;
    k := n;
    if o.Normal? || o.Jumped? {
      if o.Normal? { EndOfCode(code, StepN(code, m, n)); } else { FunctionLeft(code, StepN(code, m, n)); }
      ThenOne(code, m, n);
      k := n + 1;
    }
  }

  lemma EndOfCode(code: Ir.Code, t: State)
    requires t.Running? && t.pc == |code|
    ensures Step(code, t) == Done(t.mem)
  {}

  lemma FunctionLeft(code: Ir.Code, t: State)
    requires t.Running? && Ir.At(code, t.pc, [Ir.Br(|t.labels|)])
    ensures Step(code, t) == Done(t.mem)
  {
    Ir.AtFirst(code, t.pc, [Ir.Br(|t.labels|)]);
  }

  // ---- What the code does, wherever EXIT and CONTINUE stand ---------------------------

  /** The compiled step function does exactly what BranchSemantics says: it halts showing the result if the body so run
      ends within some fuel, and is still running if it does not. */
  lemma CodeAgrees(vars: Symbols, body: seq<Statement>, st: Store, mem: Memory, fuel: nat)
    requires WellTypedStatements(vars, body) && AllSupported(vars, body) && Represents(vars, st, mem)
    ensures var o := RunAll(body, st, fuel, 0);
            if o.OutOfFuel? then MachineAfter(body, mem, fuel).Running?
            else exists n :: Shows(vars, MachineAfter(body, mem, n), o, ProcessImage(mem))
  {
    var n := Simulated(vars, body, st, mem, fuel);
    if RunAll(body, st, fuel, 0).OutOfFuel? {
      StillRunning(StepCode(body), Start(mem, TempsAll(body)), fuel, n);
    }
  }

  /** Whenever it halts, the body so run ends, with the result the machine shows. */
  lemma CodeReflects(vars: Symbols, body: seq<Statement>, st: Store, mem: Memory, n: nat)
    requires WellTypedStatements(vars, body) && AllSupported(vars, body) && Represents(vars, st, mem)
    requires !MachineAfter(body, mem, n).Running?
    ensures var o := RunAll(body, st, n + 1, 0);
            !o.OutOfFuel? && Shows(vars, MachineAfter(body, mem, n), o, ProcessImage(mem))
  {
    var code, m := StepCode(body), Start(mem, TempsAll(body));
    var k := Simulated(vars, body, st, mem, n + 1);
    var o, t := RunAll(body, st, n + 1, 0), MachineAfter(body, mem, k);
    if o.OutOfFuel? {
      HaltedStays(code, m, n, k);
      assert false;
    }
    if !o.NoMeaning? {
      if k <= n { HaltedStays(code, m, k, n); } else { HaltedStays(code, m, n, k); }
    }
  }

  // ---- What the code does if they are well placed --------------------------------------

  lemma PlacedMeansSame(body: seq<Statement>, st: Store, fuel: nat)
    requires AllPlaced(body, PROGRAM, 2, 0)
    ensures var a, b := ExecAll(body, st, fuel), RunAll(body, st, fuel, 0);
            if b.Jumped? then a == Normal(b.st) else b == a && !a.Exited? && !a.Continued?
  {
    AllPlacedGoSameWay(body, PROGRAM, 2, 0, st, fuel);
  }

  /** Whenever the source body ends within some fuel, the compiled code halts showing the same
      result; while the source keeps running, so does the compiled code. */
  lemma CompiledAgrees(vars: Symbols, body: seq<Statement>, st: Store, mem: Memory, fuel: nat)
    requires Compilable(vars, body) && Represents(vars, st, mem)
    ensures var o := ExecAll(body, st, fuel);
            if o.OutOfFuel? then MachineAfter(body, mem, fuel).Running?
            else exists n :: Shows(vars, MachineAfter(body, mem, n), o, ProcessImage(mem))
  {
    PlacedMeansSame(body, st, fuel);
    CodeAgrees(vars, body, st, mem, fuel);
    var b := RunAll(body, st, fuel, 0);
    if !b.OutOfFuel? {
      var n :| Shows(vars, MachineAfter(body, mem, n), b, ProcessImage(mem));
      assert Shows(vars, MachineAfter(body, mem, n), ExecAll(body, st, fuel), ProcessImage(mem));
    }
  }

  lemma HaltedStays(code: Ir.Code, s: State, a: nat, b: nat)
    requires a <= b && !StepN(code, s, a).Running?
    ensures StepN(code, s, b) == StepN(code, s, a)
  {
    StepNAdd(code, s, a, b - a);
    StepNHalted(code, StepN(code, s, a), b - a);
  }

  lemma StillRunning(code: Ir.Code, s: State, a: nat, b: nat)
    requires a <= b && StepN(code, s, b).Running?
    ensures StepN(code, s, a).Running?
  {
    if !StepN(code, s, a).Running? {
      HaltedStays(code, s, a, b);
    }
  }

  /** Whenever the compiled code halts, the source body ends too, with the result the machine shows. */
  lemma HaltingReflects(vars: Symbols, body: seq<Statement>, st: Store, mem: Memory, n: nat)
    requires Compilable(vars, body) && Represents(vars, st, mem) && !MachineAfter(body, mem, n).Running?
    ensures exists fuel :: Shows(vars, MachineAfter(body, mem, n), ExecAll(body, st, fuel), ProcessImage(mem))
  {
    CodeReflects(vars, body, st, mem, n);
    PlacedMeansSame(body, st, n + 1);
    assert Shows(vars, MachineAfter(body, mem, n), ExecAll(body, st, n + 1), ProcessImage(mem));
  }

  // ---- Bodies with a meaning -----------------------------------------------------

  /** From the store `st` the body does not leave the modelled language, for instance by an index out of range. */
  ghost predicate MeaningfulAt(body: seq<Statement>, st: Store)
  {
    forall fuel: nat :: !ExecAll(body, st, fuel).NoMeaning?
  }

  /** The compiled code halts if and only if the source does. */
  lemma HaltsAlike(vars: Symbols, body: seq<Statement>, st: Store, mem: Memory)
    requires Compilable(vars, body) && MeaningfulAt(body, st) && Represents(vars, st, mem)
    ensures (exists n :: !MachineAfter(body, mem, n).Running?) <==> (exists fuel :: !ExecAll(body, st, fuel).OutOfFuel?)
  {
    if n :| !MachineAfter(body, mem, n).Running? {
      HaltingReflects(vars, body, st, mem, n);
      var fuel :| Shows(vars, MachineAfter(body, mem, n), ExecAll(body, st, fuel), ProcessImage(mem));
    }
    if fuel :| !ExecAll(body, st, fuel).OutOfFuel? {
      CompiledAgrees(vars, body, st, mem, fuel);
      var n :| Shows(vars, MachineAfter(body, mem, n), ExecAll(body, st, fuel), ProcessImage(mem));
      assert !ExecAll(body, st, fuel).NoMeaning?;
      assert !MachineAfter(body, mem, n).Running?;
    }
  }

  ghost predicate ScalarsOnly(vars: Symbols)
  {
    forall x <- vars :: !vars[x].ty.Array?
  }

  lemma OperatorHasMeaning(op: BinaryOp, a: I32, b: I32)
    ensures Apply(op, a, b).Undefined? <==> op == Pow
  {
    hide TruncDiv, TruncRem, Wrap32;
  }

  lemma {:induction false} ScalarExprHasMeaning(vars: Symbols, e: TypedExpr, st: Store)
    requires ScalarsOnly(vars) && WellTyped(vars, e) && ExprSupported(e)
    ensures !Eval(e, st).Undefined? && !e.ArrayAccess?
  {
    hide Apply, Wrap32, BinaryResultType, EvalElement;
    match e
    case Binary(l, op, r, _) =>
      ScalarExprHasMeaning(vars, l, st);
      ScalarExprHasMeaning(vars, r, st);
      var a, b := Eval(l, st), Eval(r, st);
      if a.Val? && b.Val? { OperatorHasMeaning(op, a.v, b.v); }
    case Unary(_, x, _) => ScalarExprHasMeaning(vars, x, st);
    case _ =>
  }

  lemma AssignmentHasMeaning(vars: Symbols, s: Statement, st: Store, fuel: nat)
    requires s.Assignment? && ScalarsOnly(vars) && WellTypedStatement(vars, s) && Supported(vars, s)
    ensures !Exec(s, st, fuel).NoMeaning?
  {
    ScalarExprHasMeaning(vars, s.target, st);
    ScalarExprHasMeaning(vars, s.value, st);
  }

  lemma {:induction false} ScalarStatementHasMeaning(vars: Symbols, s: Statement, st: Store, fuel: nat)
    requires ScalarsOnly(vars) && WellTypedStatement(vars, s) && Supported(vars, s)
    ensures !Exec(s, st, fuel).NoMeaning?
    decreases fuel, Size(s), 1
  {
    hide Eval, WellTyped, ExprSupported, ExecBranches, Iterate, BranchesSupported, WellTypedBranches, Narrow;
    match s
    case Assignment(t, v) => AssignmentHasMeaning(vars, s, st, fuel);
    case IfStatement(c, t, es, e) =>
      ScalarExprHasMeaning(vars, c, st);
      ScalarBodyHasMeaning(vars, t, st, fuel);
      if es == [] {
        assert ElseSize(e) < Size(s);
        if e.ElseBody? { ScalarBodyHasMeaning(vars, e.body, st, fuel); }
      } else {
        ScalarStatementHasMeaning(vars, NextElsif(s), st, fuel);
      }
    case WhileStatement(c, body) =>
      ScalarExprHasMeaning(vars, c, st);
      if fuel > 0 {
        ScalarBodyHasMeaning(vars, body, st, fuel - 1);
        var o := ExecAll(body, st, fuel - 1);
        if o.Normal? || o.Continued? { ScalarStatementHasMeaning(vars, s, o.st, fuel - 1); }
      }
    case RepeatStatement(body, until) =>
      if fuel > 0 {
        ScalarBodyHasMeaning(vars, body, st, fuel - 1);
        var o := ExecAll(body, st, fuel - 1);
        if o.Normal? || o.Continued? {
          ScalarExprHasMeaning(vars, until, o.st);
          ScalarStatementHasMeaning(vars, s, o.st, fuel - 1);
        }
      }
    case ForStatement(x, _, first, _, _, _) =>
      ScalarExprHasMeaning(vars, first, st);
      var v := Eval(first, st);
      if v.Val? { ScalarLoopHasMeaning(vars, s, st[Cell(x, 0) := v.v], fuel); }
    case CaseStatement(selector, bs, e) =>
      ScalarExprHasMeaning(vars, selector, st);
      var v := Eval(selector, st);
      if v.Val? { ScalarBranchesHaveMeaning(vars, bs, e, v.v, st, fuel); }
    case ReturnStatement(r) => if r.Some? { ScalarExprHasMeaning(vars, r.value, st); }
    case _ =>
  }

  lemma {:induction false} ScalarLoopHasMeaning(vars: Symbols, s: Statement, st: Store, fuel: nat)
    requires s.ForStatement? && ScalarsOnly(vars) && WellTypedStatement(vars, s) && Supported(vars, s)
    ensures !Iterate(s, st, fuel).NoMeaning?
    decreases fuel, Size(s), 0
  {
    hide Eval, WellTyped, ExprSupported, Wrap32, ExecAll;
    if fuel > 0 {
      ScalarExprHasMeaning(vars, s.last, st);
      ScalarBodyHasMeaning(vars, s.body, st, fuel - 1);
      var o := ExecAll(s.body, st, fuel - 1);
      if o.Normal? || o.Continued? {
        if s.step.Some? { ScalarExprHasMeaning(vars, s.step.value, o.st); }
        var d := EvalStep(s.step, o.st);
        if d.Val? {
          var x := Cell(s.variable, 0);
          ScalarLoopHasMeaning(vars, s, o.st[x := Wrap32(Get(o.st, x) + d.v)], fuel - 1);
        }
      }
    }
  }

  lemma {:induction false} ScalarBodyHasMeaning(vars: Symbols, ss: seq<Statement>, st: Store, fuel: nat)
    requires ScalarsOnly(vars) && WellTypedStatements(vars, ss) && AllSupported(vars, ss)
    ensures !ExecAll(ss, st, fuel).NoMeaning?
    decreases fuel, Sizes(ss), 0
  {
    if ss != [] {
      ScalarStatementHasMeaning(vars, ss[0], st, fuel);
      var o := Exec(ss[0], st, fuel);
      if o.Normal? { ScalarBodyHasMeaning(vars, ss[1..], o.st, fuel); }
    }
  }

  lemma {:induction false} ScalarBranchesHaveMeaning(vars: Symbols, bs: seq<CaseBranch>, e: ElseBranch, v: I32, st: Store,
                                                     fuel: nat)
    requires ScalarsOnly(vars) && WellTypedBranches(vars, bs) && BranchesSupported(vars, bs)
    requires WellTypedElse(vars, e) && ElseSupported(vars, e)
    ensures !ExecBranches(bs, e, v, st, fuel).NoMeaning?
    decreases fuel, CaseSizes(bs) + ElseSize(e), 1
  {
    if bs == [] {
      if e.ElseBody? { ScalarBodyHasMeaning(vars, e.body, st, fuel); }
    } else if v in bs[0].values {
      ScalarBodyHasMeaning(vars, bs[0].body, st, fuel);
    } else {
      ScalarBranchesHaveMeaning(vars, bs[1..], e, v, st, fuel);
    }
  }

  /** Programs without arrays always have a meaning. */
  lemma ScalarProgramsAreMeaningful(vars: Symbols, body: seq<Statement>, st: Store)
    requires ScalarsOnly(vars) && Compilable(vars, body)
    ensures MeaningfulAt(body, st) && MeaningfulFrom(body, st)
  {
    forall st: Store, fuel: nat ensures !ExecAll(body, st, fuel).NoMeaning? {
      ScalarBodyHasMeaning(vars, body, st, fuel);
    }
  }

  // ---- Runs of many cycles ---------------------------------------------------------

  /** One cycle of the runtime: it may rewrite the process image, then calls the step function. */
  ghost predicate MachineCycle(body: seq<Statement>, mem: Memory, mem': Memory)
  {
    exists io: seq<Byte>, n: nat ::
      |io| == FIRST_OFFSET <= |mem| && MachineAfter(body, io + mem[FIRST_OFFSET..], n) == Done(mem')
  }

  ghost predicate SourceCycle(body: seq<Statement>, st: Store, st': Store)
  {
    exists fuel :: ExecAll(body, st, fuel) in {Normal(st'), Returned(st')}
  }

  /** What the runtime writes to the process image does not disturb the variables. */
  lemma ProcessImageIsSeparate(vars: Symbols, st: Store, mem: Memory, io: seq<Byte>)
    requires Represents(vars, st, mem) && |io| == FIRST_OFFSET
    ensures Represents(vars, st, io + mem[FIRST_OFFSET..])
  {
    var mem' := io + mem[FIRST_OFFSET..];
    forall c <- st
      ensures IsCell(vars, c) && CellStored(vars, st, mem', c)
    {
      if CellType(vars, c).IsWord() {
        WordCellInside(vars, c);
        var a, w := Address(vars, c), Width(vars, c);
        assert CellStored(vars, st, mem, c);
        assert mem'[a..a + w] == mem[a..a + w];
      }
    }
  }

  /** A completed machine cycle is a cycle of the source program. */
  lemma CycleReflects(vars: Symbols, body: seq<Statement>, st: Store, mem: Memory, mem': Memory)
    requires Compilable(vars, body) && MeaningfulAt(body, st) && Represents(vars, st, mem) && MachineCycle(body, mem, mem')
    ensures exists st' :: SourceCycle(body, st, st') && Represents(vars, st', mem')
  {
    var io: seq<Byte>, n: nat :|
      |io| == FIRST_OFFSET <= |mem| && MachineAfter(body, io + mem[FIRST_OFFSET..], n) == Done(mem');
    var given := io + mem[FIRST_OFFSET..];
    ProcessImageIsSeparate(vars, st, mem, io);
    HaltingReflects(vars, body, st, given, n);
    var fuel :| Shows(vars, MachineAfter(body, given, n), ExecAll(body, st, fuel), ProcessImage(given));
    var o := ExecAll(body, st, fuel);
    PlacedMeansSame(body, st, fuel);
    assert !o.NoMeaning?;
    assert SourceCycle(body, st, o.st);
  }

  /** The stores of a run of the source program, one cycle after the other. */
  ghost predicate SourceRun(body: seq<Statement>, sts: seq<Store>)
  {
    forall i :: 0 <= i < |sts| - 1 ==> SourceCycle(body, sts[i], sts[i + 1])
  }

  /** No run of cycles from `st` leaves the modelled language. */
  ghost predicate MeaningfulFrom(body: seq<Statement>, st: Store)
  {
    forall sts :: sts != [] && sts[0] == st && SourceRun(body, sts) ==> MeaningfulAt(body, sts[|sts| - 1])
  }

  ghost predicate MachineRun(body: seq<Statement>, mems: seq<Memory>)
  {
    forall i :: 0 <= i < |mems| - 1 ==> MachineCycle(body, mems[i], mems[i + 1])
  }

  ghost predicate RunRepresented(vars: Symbols, sts: seq<Store>, mems: seq<Memory>)
  {
    |sts| == |mems| && forall i :: 0 <= i < |sts| ==> Represents(vars, sts[i], mems[i])
  }

  /** However often the runtime calls the step function, and whatever it writes to the process image in
      between, the memory keeps representing a run of the source program. */
  lemma {:induction false} RunsReflect(vars: Symbols, body: seq<Statement>, st: Store, mems: seq<Memory>)
    requires Compilable(vars, body) && MeaningfulFrom(body, st)
    requires mems != [] && Represents(vars, st, mems[0]) && MachineRun(body, mems)
    ensures exists sts :: RunRepresented(vars, sts, mems) && sts[0] == st && SourceRun(body, sts)
  {
    hide Represents, SourceCycle, MachineCycle, Compilable, MeaningfulAt;
    if |mems| == 1 {
      assert RunRepresented(vars, [st], mems);
    } else {
      var n := |mems| - 1;
      RunsReflect(vars, body, st, mems[..n]);
      var sts :| RunRepresented(vars, sts, mems[..n]) && sts[0] == st && SourceRun(body, sts);
      assert mems[..n][n - 1] == mems[n - 1] && MeaningfulAt(body, sts[n - 1]);
      assert MachineCycle(body, mems[n - 1], mems[n - 1 + 1]);
      CycleReflects(vars, body, sts[n - 1], mems[n - 1], mems[n]);
      var st' :| SourceCycle(body, sts[n - 1], st') && Represents(vars, st', mems[n]);
      RunExtends(vars, body, sts, mems[..n], st', mems[n]);
      assert mems[..n] + [mems[n]] == mems;
    }
  }

  lemma RunExtends(vars: Symbols, body: seq<Statement>, sts: seq<Store>, mems: seq<Memory>, st: Store, mem: Memory)
    requires sts != [] && RunRepresented(vars, sts, mems) && SourceRun(body, sts)
    requires SourceCycle(body, sts[|sts| - 1], st) && Represents(vars, st, mem)
    ensures RunRepresented(vars, sts + [st], mems + [mem]) && SourceRun(body, sts + [st])
  {
    hide Represents, SourceCycle;
    var all := sts + [st];
    forall i | 0 <= i < |all| - 1
      ensures SourceCycle(body, all[i], all[i + 1])
    {
      if i < |sts| - 1 {
        assert SourceCycle(body, sts[i], sts[i + 1]);
      }
    }
  }

  // ---- Whole programs ----------------------------------------------------------------

  function LowIndex(vars: Symbols, x: string): int
    requires x in vars
  {
    if vars[x].ty.Array? then vars[x].ty.lower else 0
  }

  function HighIndex(vars: Symbols, x: string): int
    requires x in vars
  {
    if vars[x].ty.Array? then vars[x].ty.upper else 0
  }

  ghost function Cells(vars: Symbols): (cells: set<Cell>)
    ensures forall c :: c in cells <==> IsCell(vars, c)
  {
    set x, i: int | x in vars && LowIndex(vars, x) <= i <= HighIndex(vars, x) :: Cell(x, i)
  }

  /** Every variable is zero, every BOOL false. */
  ghost function ZeroStore(vars: Symbols): Store
  {
    map c | c in Cells(vars) :: 0
  }

  function ZeroPage(): Memory { seq(PAGE, _ => 0) }

  /** A fresh instance starts from the zero store. */
  lemma ZeroPageRepresents(vars: Symbols)
    requires Placed(vars)
    ensures Represents(vars, ZeroStore(vars), ZeroPage())
  {
    var st, mem := ZeroStore(vars), ZeroPage();
    forall c <- st
      ensures CellStored(vars, st, mem, c)
    {
      if CellType(vars, c).IsWord() {
        WordCellInside(vars, c);
        var a, w := Address(vars, c), Width(vars, c);
        var bytes := mem[a..a + w];
        assert forall k :: 0 <= k < w ==> bytes[k] == 0;
      }
    }
  }

  /** A program the checker accepts, whose variables fit the page and whose statements lie in the supported fragment
      with EXIT and CONTINUE well placed: from a fresh instance, any run of machine cycles is a run of the program,
      provided no index is out of range in its runs. */
  lemma CheckedProgramRuns(p: Ast.Program, mems: seq<Memory>)
    requires WellBounded(Flatten(p.variables)) && Sized(Flatten(p.variables)) && CheckProgram(p).Success?
    requires Extent(FIRST_OFFSET, Flatten(p.variables)) <= PAGE
    requires InFragment(CheckProgram(p).value.scope.symbols, CheckProgram(p).value.body)
    requires MeaningfulFrom(CheckProgram(p).value.body, ZeroStore(CheckProgram(p).value.scope.symbols))
    requires mems != [] && mems[0] == ZeroPage() && MachineRun(CheckProgram(p).value.body, mems)
    ensures var vars, body := CheckProgram(p).value.scope.symbols, CheckProgram(p).value.body;
            exists sts :: RunRepresented(vars, sts, mems) && sts[0] == ZeroStore(vars) && SourceRun(body, sts)
  {
    CheckedProgram(p);
    FitsIsSound(Flatten(p.variables));
    var typed := CheckProgram(p).value;
    SoundLayoutIsPlaced(typed.scope);
    ZeroPageRepresents(typed.scope.symbols);
    RunsReflect(typed.scope.symbols, typed.body, ZeroStore(typed.scope.symbols), mems);
  }

  /** The step function of any checked body, EXIT and CONTINUE included, is well nested. */
  lemma StepCodeIsWellNested(body: seq<Statement>)
    ensures WellNested(StepCode(body), 0)
  {
    AllAreWellNested(body, 0, 0, 0);
  }
}
