/** The simulation: every supported statement, compiled, does on the machine what it means. */
module Simulation {
  import opened Words
  import opened TypedTree
  import opened TypeChecker
  import opened SourceSemantics
  import opened BranchSemantics
  import Ir
  import opened WasmMachine
  import opened Lowering
  import opened Nesting
  import opened ExprCorrect
  import opened StatementCorrect

  ghost predicate Ready(vars: Symbols, s: Statement, st: Store, depth: nat, temp: nat, code: Ir.Code, m: State)
  {
    && m.Running? && Represents(vars, st, m.mem) && WellTypedStatement(vars, s) && Supported(vars, s)
    && Ir.At(code, m.pc, Lower(s, depth, temp)) && temp + Temps(s) <= |m.locals|
  }

  /** Outcomes other than normal termination and jumps do not depend on where the code would be left. */
  lemma Aborts(vars: Symbols, code: Ir.Code, m: State, x: Exit, y: Exit, o: Outcome, fuel: nat, n: nat)
    requires Ends(vars, code, m, x, o, fuel, n) && !o.Normal? && !o.Jumped? && x.io == y.io
    ensures Ends(vars, code, m, y, o, fuel, n)
  {}

  /** Outcomes other than normal termination do not depend on the position at which the code would be left. */
  lemma NotHere(vars: Symbols, code: Ir.Code, m: State, x: Exit, y: Exit, o: Outcome, fuel: nat, n: nat)
    requires Ends(vars, code, m, x, o, fuel, n) && !o.Normal? && y == x.(pc := y.pc)
    ensures Ends(vars, code, m, y, o, fuel, n)
  {}

  /** After `k` steps the machine is at `t`; if the run from `t` ends well, so does the whole run. */
  lemma Continue(vars: Symbols, code: Ir.Code, m: State, k: nat, t: State, x: Exit, o: Outcome, fuel: nat, less: nat, n: nat)
    requires StepN(code, m, k) == t && Ends(vars, code, t, x, o, less, n) && fuel <= less + k
    ensures Ends(vars, code, m, x, o, fuel, k + n)
  {
    Prefix(vars, code, m, k, x, o, fuel, less, n);
  }

  /** The state in which a piece of code of length `len` was left normally. */
  lemma NormalEnd(vars: Symbols, code: Ir.Code, m: State, len: nat, o: Outcome, fuel: nat, n: nat)
    requires m.Running? && Ends(vars, code, m, After(m, len), o, fuel, n) && o.Normal?
    ensures var t := StepN(code, m, n);
            && t.Running? && t == m.(pc := m.pc + len, locals := t.locals, mem := t.mem) && |t.locals| == |m.locals|
            && Represents(vars, o.st, t.mem) && ProcessImage(t.mem) == ProcessImage(m.mem)
  {}

  /** A run that reaches the exit with its memory unchanged. */
  lemma ReachesExit(vars: Symbols, code: Ir.Code, m: State, x: Exit, st: Store, fuel: nat, n: nat)
    requires m.Running? && StepN(code, m, n) == m.(pc := x.pc, labels := x.labels) && m.stack == x.stack
    requires |m.locals| == x.localCount && MemoryIs(vars, st, m.mem, x.io)
    ensures Ends(vars, code, m, x, Normal(st), fuel, n)
  {}

  /** A run that fails, as the evaluation of an expression did. */
  lemma Fails(vars: Symbols, code: Ir.Code, m: State, v: Value, x: Exit, st: Store, fuel: nat, n: nat)
    requires m.Running? && !v.Val? && (v.Trap? ==> StepN(code, m, n) == WasmMachine.Trapped(m.mem))
    requires MemoryIs(vars, st, m.mem, x.io)
    ensures Ends(vars, code, m, x, Failed(v, st), fuel, n)
  {}

  lemma NotYet(vars: Symbols, code: Ir.Code, m: State, x: Exit)
    requires m.Running?
    ensures Ends(vars, code, m, x, OutOfFuel, 0, 0)
  {}

  // ---- Statements without sub-statements -------------------------------------

  lemma AssignmentRuns(vars: Symbols, s: Statement, st: Store, fuel: nat, depth: nat, temp: nat, code: Ir.Code, m: State)
    returns (n: nat)
    requires Ready(vars, s, st, depth, temp, code, m) && s.Assignment?
    ensures Ends(vars, code, m, After(m, |Lower(s, depth, temp)|), Run(s, st, fuel, depth), fuel, n)
  {
    hide Step, StepN, Represents, LowerExpr, LowerAddress;
    var A, V, store := LowerAddress(s.target), LowerExpr(s.value), [StoreInstr(s.target.ty)];
    var x, place, v := After(m, |Lower(s, depth, temp)|), EvalPlace(s.target, st), Eval(s.value, st);
    Ir.AtAppend(code, m.pc, A + V, store);
    Ir.AtAppend(code, m.pc, A, V);
    TargetRuns(vars, s.target, st, code, m);
    n := |A| + |V| + 1;
    MemoryIsOwn(vars, st, m.mem);
    if place.PlaceTrap? {
      n := |A|;
      Fails(vars, code, m, Trap, x, st, fuel, n);
    } else if place.At? {
      var c := place.cell;
      ExprRuns(vars, s.value, st, code, Pushed(m, A, Address(vars, c)));
      if v.Val? {
        AssignedValue(vars, s, st, m.mem);
      }
      SupportedTarget(vars, s);
      StoreCode(vars, st, code, m, A, V, c, Address(vars, c), 0, v);
      if !v.Val? {
        Fails(vars, code, m, v, x, st, fuel, n);
      }
    }
  }

  lemma SupportedTarget(vars: Symbols, s: Statement)
    requires s.Assignment? && WellTypedStatement(vars, s) && Supported(vars, s)
    ensures s.target.ty.IsWord() && StoreInstr(s.target.ty) == StoreAt(s.target.ty, 0)
  {
    SupportedIsWord(vars, s.target);
  }

  lemma AssignedValue(vars: Symbols, s: Statement, st: Store, mem: Memory)
    requires s.Assignment? && WellTypedStatement(vars, s) && Supported(vars, s) && Represents(vars, st, mem)
    requires Eval(s.value, st).Val?
    ensures s.target.ty.IsWord() && s.target.ty.Admits(Narrow(Eval(s.value, st).v, s.target.ty.SizeBytes()))
  {
    AssignedValueAdmitted(vars, s.target, s.value, st);
  }

  lemma ReturnRuns(vars: Symbols, s: Statement, st: Store, fuel: nat, depth: nat, temp: nat, code: Ir.Code, m: State)
    returns (n: nat)
    requires Ready(vars, s, st, depth, temp, code, m) && s.ReturnStatement?
    ensures Ends(vars, code, m, After(m, |Lower(s, depth, temp)|), Run(s, st, fuel, depth), fuel, n)
  {
    hide Step, StepN, LowerExpr, Represents;
    var x := After(m, |Lower(s, depth, temp)|);
    var C := if s.result.Some? then LowerExpr(s.result.value) else [];
    Ir.AtAppend(code, m.pc, C, [Ir.Return]);
    ThenOne(code, m, |C|);
    if s.result.Some? {
      ExprRuns(vars, s.result.value, st, code, m);
      var v := Eval(s.result.value, st);
      if !v.Val? {
        ExprFails(vars, code, m, C, v, st, x, fuel);
        return |C|;
      }
      ReturnStep(code, Pushed(m, C, v.v));
    } else {
      StepNone(code, m);
      ReturnStep(code, m);
    }
    n := |C| + 1;
  }

  lemma ReturnStep(code: Ir.Code, m: State)
    requires m.Running? && Ir.At(code, m.pc, [Ir.Return])
    ensures Step(code, m) == Done(m.mem)
  {
    Ir.AtFirst(code, m.pc, [Ir.Return]);
  }

  lemma StepNone(code: Ir.Code, m: State)
    ensures StepN(code, m, 0) == m
  {}

  // ---- Loops, one iteration at a time ------------------------------------------

  /** The machine stands at the Loop instruction of the loop `s` whose code begins at `pc`. */
  ghost predicate AtLoop(vars: Symbols, s: Statement, st: Store, depth: nat, temp: nat, code: Ir.Code, pc: nat, X: Ir.Code,
                         m: State, outer: seq<Label>, x: Exit)
  {
    && m.Running? && WellTypedStatement(vars, s) && Supported(vars, s) && temp + Temps(s) <= |m.locals|
    && Ir.At(code, pc, LoopCode(X)) && m.pc == pc + 1
    && m.labels == outer + [Label(pc + |LoopCode(X)|, |m.stack|)]
    && x == Exit(pc + |LoopCode(X)|, m.stack, outer, |m.locals|, x.io) && MemoryIs(vars, st, m.mem, x.io)
  }

  /** The state in which an iteration begins. */
  function InLoop(m: State): (r: State)
    requires m.Running?
    ensures r.Running?
  {
    m.(pc := m.pc + 1, labels := m.labels + [Label(m.pc, |m.stack|)])
  }

  lemma IterationBegins(code: Ir.Code, pc: nat, X: Ir.Code, m: State)
    requires m.Running? && Ir.At(code, pc, LoopCode(X)) && m.pc == pc + 1
    ensures StepN(code, m, 1) == InLoop(m) && Ir.At(code, InLoop(m).pc, X)
  {
    LoopParts(code, pc, X);
    LoopHead(code, m);
    One(code, m);
  }

  /** From the end of an iteration back to the Loop instruction. */
  lemma IterationRepeats(code: Ir.Code, pc: nat, X: Ir.Code, m: State, t: State)
    requires m.Running? && t.Running? && InLoop(m).Running? && Ir.At(code, pc, LoopCode(X)) && m.pc == pc + 1
    requires t == InLoop(m).(pc := pc + 2 + |X|, locals := t.locals, mem := t.mem)
    ensures StepN(code, t, 1) == m.(locals := t.locals, mem := t.mem)
  {
    LoopParts(code, pc, X);
    LoopBack(code, t, m.labels, Label(m.pc, |m.stack|));
    One(code, t);
  }

  /** A loop is entered through its Block instruction. */
  lemma LoopEntered(vars: Symbols, s: Statement, st: Store, depth: nat, temp: nat, code: Ir.Code, X: Ir.Code, m: State, base: nat)
    requires m.Running? && Represents(vars, st, m.mem) && WellTypedStatement(vars, s) && Supported(vars, s)
    requires temp + Temps(s) <= |m.locals| && Ir.At(code, m.pc, LoopCode(X)) && WellNested(X, base)
    ensures var t := StepN(code, m, 1);
            && t == m.(pc := m.pc + 1, labels := m.labels + [Label(m.pc + |LoopCode(X)|, |m.stack|)])
            && AtLoop(vars, s, st, depth, temp, code, m.pc, X, t, m.labels, After(m, |LoopCode(X)|))
  {
    hide WellTypedStatement, Supported, Represents, Step, WellNested;
    EnterLoop(code, m, X, base);
    One(code, m);
  }

  /** The next iterations, from the end of the one before. */
  lemma Again(vars: Symbols, code: Ir.Code, pc: nat, X: Ir.Code, m: State, t: State, x: Exit, o: Outcome, fuel: nat, n: nat)
    requires m.Running? && t.Running? && InLoop(m).Running? && Ir.At(code, pc, LoopCode(X)) && m.pc == pc + 1
    requires t == InLoop(m).(pc := pc + 2 + |X|, locals := t.locals, mem := t.mem)
    requires Ends(vars, code, m.(locals := t.locals, mem := t.mem), x, o, fuel, n)
    ensures Ends(vars, code, t, x, o, fuel, 1 + n)
  {
    hide Ends;
    IterationRepeats(code, pc, X, m, t);
    Continue(vars, code, t, 1, m.(locals := t.locals, mem := t.mem), x, o, fuel, fuel, n);
  }

  /** The condition at the head of a WHILE iteration. */
  lemma WhileTested(vars: Symbols, s: Statement, st: Store, depth: nat, temp: nat, code: Ir.Code, pc: nat, m: State,
                    outer: seq<Label>, x: Exit)
    requires s.WhileStatement?
    requires AtLoop(vars, s, st, depth, temp, code, pc, LowerWhileTest(s.condition) + LowerAll(s.body, depth + 1, temp), m, outer, x)
    ensures var T, v := LowerWhileTest(s.condition), Eval(s.condition, st);
            var m2, t := InLoop(m).(pc := pc + 2 + |T|), StepN(code, m, 1 + |T|);
            && Ir.At(code, m2.pc, LowerAll(s.body, depth + 1, temp))
            && match v
               case Val(c) => t == if c == 0 then m.(pc := x.pc, labels := outer) else m2
               case Trap => t == WasmMachine.Trapped(m.mem)
               case Undefined => true
  {
    hide Step, StepN, Represents, LowerExpr, LowerAll, Eval;
    var C, T, B := LowerExpr(s.condition), LowerWhileTest(s.condition), LowerAll(s.body, depth + 1, temp);
    var X, v := T + B, Eval(s.condition, st);
    IterationBegins(code, pc, X, m);
    var m1 := InLoop(m);
    Ir.AtAppend(code, m1.pc, T, B);
    assert T == C + [Ir.I32Eqz] + [Ir.BrIf(1)];
    Ir.AtAppend(code, m1.pc, C + [Ir.I32Eqz], [Ir.BrIf(1)]);
    Ir.AtAppend(code, m1.pc, C, [Ir.I32Eqz]);
    ExprRuns(vars, s.condition, st, code, m1);
    NegatedRuns(code, m1, C, v);
    var stop := if v.Val? then Val(Truth(v.v == 0)) else v;
    BreakTest(code, m1, C + [Ir.I32Eqz], stop, outer, Label(pc + |LoopCode(X)|, |m.stack|), Label(m.pc, |m.stack|));
    Then(code, m, 1, |T|);
  }

  lemma WhileMeans(s: Statement, st: Store, fuel: nat, depth: nat)
    requires s.WhileStatement? && fuel > 0
    ensures var v, o := Eval(s.condition, st), RunAll(s.body, st, fuel - 1, depth + 1);
            Run(s, st, fuel, depth) == if !v.Val? then Failed(v, st)
                                 else if v.v == 0 then Normal(st)
                                 else if o.Normal? || ToHead(o) then Run(s, o.st, fuel - 1, depth) else OutOfLoop(o)
  {}

  // ---- Conditional branches -----------------------------------------------------

  /** A branch of a conditional that ended normally leaves the conditional through its Else or End, one that ended with a
      branch to the conditional's label through that. */
  lemma BranchLeft(vars: Symbols, code: Ir.Code, m: State, len: nat, outer: seq<Label>, inner: Label, o: Outcome,
                   fuel: nat, n: nat)
    returns (k: nat)
    requires m.Running? && m.labels == outer + [inner] && Ends(vars, code, m, After(m, len), o, fuel, n)
    requires inner.height == |m.stack|
    requires || Ir.At(code, m.pc + len, [Ir.Else])
             || (Ir.At(code, m.pc + len, [Ir.End]) && inner.continuation == m.pc + len + 1)
    ensures Ends(vars, code, m, Exit(inner.continuation, m.stack, outer, |m.locals|, ProcessImage(m.mem)), Out(o, 1), fuel, k)
  {
    hide Step, StepN, MemoryIs;
    var x := Exit(inner.continuation, m.stack, outer, |m.locals|, ProcessImage(m.mem));
    k := n;
    if o.Normal? {
      LeaveIf(code, StepN(code, m, n), outer, inner);
      ThenOne(code, m, n);
      k := n + 1;
    } else if o.Jumped? && o.target == 0 {
      BranchTaken(vars, code, StepN(code, m, n), After(m, len), o.st, 0);
      ThenOne(code, m, n);
      k := n + 1;
    } else if o.Jumped? {
      BranchOutward(vars, code, m, After(m, len), x, [inner], o, fuel, n);
    } else {
      Aborts(vars, code, m, After(m, len), x, o, fuel, n);
    }
  }

  /** Seen from around a construct, a branch out of it has fewer labels to go. */
  lemma BranchOutward(vars: Symbols, code: Ir.Code, m: State, x: Exit, y: Exit, inner: seq<Label>, o: Outcome, fuel: nat, n: nat)
    requires Ends(vars, code, m, x, o, fuel, n) && o.Jumped? && o.target >= |inner|
    requires x.labels == y.labels + inner && y == x.(pc := y.pc, labels := y.labels)
    ensures Ends(vars, code, m, y, Jumped(o.st, o.target - |inner|), fuel, n)
  {
    hide MemoryIs;
    assert y.labels <= x.labels;
  }

  /** A condition, the If instruction, and the code of the branch it selects. */
  lemma Selected(code: Ir.Code, m: State, C: Ir.Code, c: I32, T: Ir.Code, R: Ir.Code, base: nat)
    requires m.Running? && Ir.At(code, m.pc, C + IfCode(T, R)) && WellNested(T, base) && ElsePart(R, base)
    requires Computes(code, m, C, Val(c))
    ensures var t, inside := StepN(code, m, |C| + 1), m.labels + [Label(m.pc + |C + IfCode(T, R)|, |m.stack|)];
            var p := m.pc + |C| + 1;
            && t == (if c != 0 then m.(pc := p, labels := inside)
                     else if R == [] then m.(pc := m.pc + |C + IfCode(T, R)|)
                     else m.(pc := p + |T| + 1, labels := inside))
            && Ir.At(code, p, T)
            && (R == [] ==> Ir.At(code, p + |T|, [Ir.End]))
            && (R != [] ==> Ir.At(code, p + |T|, [Ir.Else]) && Ir.At(code, p + |T| + 1, R[1..])
                            && Ir.At(code, p + |T| + |R|, [Ir.End]))
  {
    hide Step, StepN, WellNested;
    Ir.AtAppend(code, m.pc, C, IfCode(T, R));
    var m1 := Pushed(m, C, c);
    EnterIf(code, m1, m.stack, c, T, R, base);
    IfParts(code, m1.pc, T, R);
    ThenOne(code, m, |C|);
  }

  /** From the selection of a branch through its end to the end of the conditional. */
  lemma Arm(vars: Symbols, code: Ir.Code, m: State, k: nat, m2: State, len: nat, x: Exit, o: Outcome, fuel: nat, n: nat)
    returns (r: nat)
    requires m.Running? && m2.Running? && StepN(code, m, k) == m2 && x == After(m, 0).(pc := x.pc)
    requires m2 == m.(pc := m2.pc, labels := m.labels + [Label(x.pc, |m.stack|)])
    requires Ends(vars, code, m2, After(m2, len), o, fuel, n)
    requires Ir.At(code, m2.pc + len, [Ir.Else]) || (Ir.At(code, m2.pc + len, [Ir.End]) && x.pc == m2.pc + len + 1)
    ensures Ends(vars, code, m, x, Out(o, 1), fuel, r)
  {
    hide Step, StepN, Ends;
    r := BranchLeft(vars, code, m2, len, m.labels, Label(x.pc, |m.stack|), o, fuel, n);
    Continue(vars, code, m, k, m2, x, Out(o, 1), fuel, fuel, r);
    r := k + r;
  }

  /** A conditional none of whose branches is selected. */
  lemma Skipped(vars: Symbols, code: Ir.Code, m: State, k: nat, x: Exit, st: Store, fuel: nat)
    requires m.Running? && StepN(code, m, k) == m.(pc := x.pc) && Represents(vars, st, m.mem)
    requires x == After(m, 0).(pc := x.pc)
    ensures Ends(vars, code, m, x, Normal(st), fuel, k)
  {}

  // ---- EXIT and CONTINUE ------------------------------------------------------------

  lemma JumpRuns(vars: Symbols, s: Statement, st: Store, fuel: nat, depth: nat, temp: nat, code: Ir.Code, m: State)
    requires Ready(vars, s, st, depth, temp, code, m) && (s.ExitStatement? || s.ContinueStatement?)
    ensures Ends(vars, code, m, After(m, |Lower(s, depth, temp)|), Run(s, st, fuel, depth), fuel, 0)
  {
    hide Represents;
    MemoryIsOwn(vars, st, m.mem);
  }

  /** The body of a loop ended with a branch to the label behind the loop, or further out. */
  lemma LoopLeft(vars: Symbols, code: Ir.Code, m: State, b: State, len: nat, x: Exit, o: Outcome, fuel: nat, n: nat)
    returns (k: nat)
    requires m.Running? && b.Running? && InLoop(m).Running? && b == InLoop(m).(pc := b.pc, locals := b.locals, mem := b.mem)
    requires m.labels == x.labels + [Label(x.pc, |m.stack|)] && x.stack == m.stack
    requires |b.locals| == x.localCount && ProcessImage(b.mem) == x.io
    requires Ends(vars, code, b, After(b, len), o, fuel, n) && !o.Normal? && !ToHead(o)
    ensures Ends(vars, code, b, x, OutOfLoop(o), fuel, k)
  {
    hide StepN, MemoryIs, Step;
    k := n;
    if o.Jumped? && o.target == 1 {
      assert b.labels[..|x.labels|] == x.labels && b.labels[|x.labels|] == Label(x.pc, |m.stack|);
      BranchTaken(vars, code, StepN(code, b, n), After(b, len), o.st, 1);
      ThenOne(code, b, n);
      k := n + 1;
    } else if o.Jumped? {
      var inner := [Label(x.pc, |m.stack|), Label(m.pc, |m.stack|)];
      assert b.labels == x.labels + inner;
      BranchOutward(vars, code, b, After(b, len), x, inner, o, fuel, n);
    } else {
      Aborts(vars, code, b, After(b, len), x, o, fuel, n);
    }
  }

  /** The body of a loop ended normally or with a branch to its head: one more step, and the machine is at the Loop
      instruction again. */
  lemma LoopsBack(vars: Symbols, code: Ir.Code, pc: nat, X: Ir.Code, m: State, b: State, len: nat, o: Outcome,
                  fuel: nat, n: nat)
    requires m.Running? && b.Running? && InLoop(m).Running? && b == InLoop(m).(pc := b.pc, locals := b.locals, mem := b.mem)
    requires Ir.At(code, pc, LoopCode(X)) && m.pc == pc + 1 && (o.Normal? ==> b.pc + len == pc + 2 + |X|)
    requires Ends(vars, code, b, After(b, len), o, fuel, n) && (o.Normal? || ToHead(o))
    ensures var t := StepN(code, b, n);
            && t.Running? && StepN(code, b, n + 1) == m.(locals := t.locals, mem := t.mem)
            && |t.locals| == |b.locals| && Represents(vars, o.st, t.mem) && ProcessImage(t.mem) == ProcessImage(b.mem)
  {
    hide StepN, Represents, ProcessImage, LoopCode, Step;
    var t := StepN(code, b, n);
    if o.Normal? {
      IterationRepeats(code, pc, X, m, t);
      One(code, t);
    } else {
      assert b.labels == m.labels + [Label(m.pc, |m.stack|)] && b.labels[..|m.labels|] == m.labels;
      BranchTaken(vars, code, t, After(b, len), o.st, 0);
    }
    ThenOne(code, b, n);
  }

  lemma IfMeans(s: Statement, st: Store, fuel: nat, depth: nat)
    requires s.IfStatement?
    ensures var v := Eval(s.condition, st);
            Run(s, st, fuel, depth) == if !v.Val? then Failed(v, st)
                                 else if v.v != 0 then Out(RunAll(s.thenBranch, st, fuel, depth), 1)
                                 else if s.elsifs != [] then Out(Run(NextElsif(s), st, fuel, depth), 1)
                                 else if s.otherwise.ElseBody? then Out(RunAll(s.otherwise.body, st, fuel, depth), 1)
                                 else Normal(st)
  {}

  /** The branches of a well-typed, supported IF are so too, and use no more temporaries. */
  lemma IfBranches(vars: Symbols, s: Statement, depth: nat, temp: nat)
    requires s.IfStatement? && WellTypedStatement(vars, s) && Supported(vars, s)
    ensures WellTyped(vars, s.condition) && ExprSupported(s.condition)
    ensures WellTypedStatements(vars, s.thenBranch) && AllSupported(vars, s.thenBranch)
    ensures Sizes(s.thenBranch) < Size(s)
    ensures var R := LowerRest(s, depth, temp);
            if s.elsifs != [] then
              && WellTypedStatement(vars, NextElsif(s)) && Supported(vars, NextElsif(s))
              && R != [] && R[1..] == Lower(NextElsif(s), depth, temp)
              && TempsAll(s.thenBranch) + Temps(NextElsif(s)) == Temps(s)
            else if s.otherwise.ElseBody? then
              && WellTypedStatements(vars, s.otherwise.body) && AllSupported(vars, s.otherwise.body)
              && R != [] && R[1..] == LowerAll(s.otherwise.body, depth, temp) && Sizes(s.otherwise.body) < Size(s)
              && TempsAll(s.thenBranch) + TempsAll(s.otherwise.body) == Temps(s)
            else R == [] && TempsAll(s.thenBranch) == Temps(s)
  {
    assert Size(s) == 1 + Sizes(s.thenBranch) + ElsifSizes(s.elsifs) + ElseSize(s.otherwise);
  }

  /** The condition at the end of a REPEAT iteration whose body ended in `st`. */
  lemma UntilTested(vars: Symbols, s: Statement, st: Store, code: Ir.Code, m2: State, outer: seq<Label>, block: Label, head: Label)
    requires s.RepeatStatement? && m2.Running? && Represents(vars, st, m2.mem)
    requires WellTyped(vars, s.until) && ExprSupported(s.until) && Ir.At(code, m2.pc, LowerUntil(s.until))
    requires m2.labels == outer + [block] + [head] && block.height == |m2.stack|
    ensures var v, t := Eval(s.until, st), StepN(code, m2, |LowerUntil(s.until)|);
            match v
            case Val(c) => t == if c == 0 then m2.(pc := m2.pc + |LowerUntil(s.until)|)
                                else m2.(pc := block.continuation, labels := outer)
            case Trap => t == WasmMachine.Trapped(m2.mem)
            case Undefined => true
  {
    hide Step, StepN, Represents, LowerExpr, Eval;
    Ir.AtAppend(code, m2.pc, LowerExpr(s.until), [Ir.BrIf(1)]);
    ExprRuns(vars, s.until, st, code, m2);
    BreakTest(code, m2, LowerExpr(s.until), Eval(s.until, st), outer, block, head);
  }

  lemma RepeatMeans(s: Statement, st: Store, fuel: nat, depth: nat)
    requires s.RepeatStatement? && fuel > 0
    ensures var o := RunAll(s.body, st, fuel - 1, depth + 1);
            Run(s, st, fuel, depth) == if ToHead(o) then Run(s, o.st, fuel - 1, depth) else if !o.Normal? then OutOfLoop(o) else
              var v := Eval(s.until, o.st);
              if !v.Val? then Failed(v, o.st) else if v.v != 0 then Normal(o.st) else Run(s, o.st, fuel - 1, depth)
  {}

  /** The bound at the head of a FOR iteration. */
  lemma ForTested(vars: Symbols, s: Statement, st: Store, code: Ir.Code, m1: State, outer: seq<Label>, block: Label, head: Label)
    requires s.ForStatement? && m1.Running? && Represents(vars, st, m1.mem) && WellTypedStatement(vars, s) && Supported(vars, s)
    requires Ir.At(code, m1.pc, LowerForTest(s)) && m1.labels == outer + [block] + [head] && block.height == |m1.stack|
    ensures var b, t := Eval(s.last, st), StepN(code, m1, |LowerForTest(s)|);
            match b
            case Val(bound) =>
              t == if Get(st, Cell(s.variable, 0)) > bound then m1.(pc := block.continuation, labels := outer)
                   else m1.(pc := m1.pc + |LowerForTest(s)|)
            case Trap => t == WasmMachine.Trapped(m1.mem)
            case Undefined => true
  {
    hide Step, StepN, LowerExpr, LowerForTest, Eval;
    ForCode(s);
    ForExpressions(vars, s, st, m1.mem);
    ForValues(vars, s, st, m1.mem);
    hide Represents, WellTypedStatement, Supported;
    var K := LowerExpr(ForExceeded(s));
    Ir.AtAppend(code, m1.pc, K, [Ir.BrIf(1)]);
    ExprRuns(vars, ForExceeded(s), st, code, m1);
    BreakTest(code, m1, K, Eval(ForExceeded(s), st), outer, block, head);
  }

  lemma IterateMeans(s: Statement, st: Store, fuel: nat, depth: nat)
    requires s.ForStatement? && fuel > 0
    ensures var b, o, c := Eval(s.last, st), RunAll(s.body, st, fuel - 1, depth + 1), Cell(s.variable, 0);
            RunIterations(s, st, fuel, depth) == if !b.Val? then Failed(b, st)
              else if Get(st, c) > b.v then Normal(st)
              else if ToHead(o) then RunIterations(s, o.st, fuel - 1, depth) else if !o.Normal? then OutOfLoop(o) else
              var d := EvalStep(s.step, o.st);
              if d.Val? then RunIterations(s, o.st[c := Wrap32(Get(o.st, c) + d.v)], fuel - 1, depth) else Failed(d, o.st)
  {}

  // ---- The simulation ------------------------------------------------------------

  lemma WhileCode(c: TypedExpr, body: seq<Statement>, depth: nat, temp: nat)
    ensures var X := LowerWhileTest(c) + LowerAll(body, depth + 1, temp);
            Lower(WhileStatement(c, body), depth, temp) == LoopCode(X) && WellNested(X, 2 * depth + 2)
  {
    PartsAreWellNested(c, 2 * depth);
    AllAreWellNested(body, depth + 1, temp, 2 * depth + 2);
    WellNestedAppend(LowerWhileTest(c), LowerAll(body, depth + 1, temp), 2 * depth + 2);
  }

  lemma RepeatCode(body: seq<Statement>, until: TypedExpr, depth: nat, temp: nat)
    ensures var X := LowerAll(body, depth + 1, temp) + LowerUntil(until);
            Lower(RepeatStatement(body, until), depth, temp) == LoopCode(X) && WellNested(X, 2 * depth + 2)
  {
    PartsAreWellNested(until, 2 * depth);
    AllAreWellNested(body, depth + 1, temp, 2 * depth + 2);
    WellNestedAppend(LowerAll(body, depth + 1, temp), LowerUntil(until), 2 * depth + 2);
  }

  /** Whatever a supported statement does - end, return, trap or go on - its code does. */
  lemma {:induction false} StatementRuns(vars: Symbols, s: Statement, st: Store, fuel: nat, depth: nat, temp: nat,
                                         code: Ir.Code, m: State) returns (n: nat)
    requires Ready(vars, s, st, depth, temp, code, m)
    ensures Ends(vars, code, m, After(m, |Lower(s, depth, temp)|), Run(s, st, fuel, depth), fuel, n)
    decreases fuel, Size(s), 3
  {
    hide Step, StepN, Represents;
    match s
    case Assignment(_, _) => n := AssignmentRuns(vars, s, st, fuel, depth, temp, code, m);
    case ReturnStatement(_) => n := ReturnRuns(vars, s, st, fuel, depth, temp, code, m);
    case IfStatement(_, _, _, _) => n := IfRuns(vars, s, st, fuel, depth, temp, code, m);
    case WhileStatement(c, body) =>
      var X := LowerWhileTest(c) + LowerAll(body, depth + 1, temp);
      WhileCode(c, body, depth, temp);
      hide WellTypedStatement, Supported, Lower, Run, Temps, WellNested, LoopCode, Ir.At, AtLoop;
      LoopEntered(vars, s, st, depth, temp, code, X, m, 2 * depth + 2);
      n := WhileRuns(vars, s, st, fuel, depth, temp, code, m.pc, StepN(code, m, 1), m.labels, After(m, |LoopCode(X)|));
      Continue(vars, code, m, 1, StepN(code, m, 1), After(m, |LoopCode(X)|), Run(s, st, fuel, depth), fuel, fuel, n);
      n := 1 + n;
    case RepeatStatement(body, until) =>
      var X := LowerAll(body, depth + 1, temp) + LowerUntil(until);
      RepeatCode(body, until, depth, temp);
      hide WellTypedStatement, Supported, Lower, Run, Temps, WellNested, LoopCode, Ir.At, AtLoop;
      LoopEntered(vars, s, st, depth, temp, code, X, m, 2 * depth + 2);
      n := RepeatRuns(vars, s, st, fuel, depth, temp, code, m.pc, StepN(code, m, 1), m.labels, After(m, |LoopCode(X)|));
      Continue(vars, code, m, 1, StepN(code, m, 1), After(m, |LoopCode(X)|), Run(s, st, fuel, depth), fuel, fuel, n);
      n := 1 + n;
    case ForStatement(_, _, _, _, _, _) => n := ForRuns(vars, s, st, fuel, depth, temp, code, m);
    case CaseStatement(_, _, _) => n := CaseRuns(vars, s, st, fuel, depth, temp, code, m);
    case ExitStatement => JumpRuns(vars, s, st, fuel, depth, temp, code, m); n := 0;
    case ContinueStatement => JumpRuns(vars, s, st, fuel, depth, temp, code, m); n := 0;
    case EmptyStatement => StepNone(code, m); n := 0;
  }

  lemma {:induction false} AllRun(vars: Symbols, ss: seq<Statement>, st: Store, fuel: nat, depth: nat, temp: nat,
                                  code: Ir.Code, m: State) returns (n: nat)
    requires m.Running? && Represents(vars, st, m.mem) && WellTypedStatements(vars, ss) && AllSupported(vars, ss)
    requires Ir.At(code, m.pc, LowerAll(ss, depth, temp)) && temp + TempsAll(ss) <= |m.locals|
    ensures Ends(vars, code, m, After(m, |LowerAll(ss, depth, temp)|), RunAll(ss, st, fuel, depth), fuel, n)
    decreases fuel, Sizes(ss), 0
  {
    hide Step, StepN, Represents, Lower, Run, Supported, WellTypedStatement;
    if ss == [] {
      StepNone(code, m);
      n := 0;
    } else {
      var A, B := Lower(ss[0], depth, temp), LowerAll(ss[1..], depth, temp + Temps(ss[0]));
      var x := After(m, |A + B|);
      Ir.AtAppend(code, m.pc, A, B);
      n := StatementRuns(vars, ss[0], st, fuel, depth, temp, code, m);
      var o := Run(ss[0], st, fuel, depth);
      if o.Normal? {
        var m1 := StepN(code, m, n);
        var k := AllRun(vars, ss[1..], o.st, fuel, depth, temp + Temps(ss[0]), code, m1);
        Continue(vars, code, m, n, m1, x, RunAll(ss[1..], o.st, fuel, depth), fuel, fuel, k);
        n := n + k;
      } else {
        NotHere(vars, code, m, After(m, |A|), x, o, fuel, n);
      }
    }
  }

  lemma {:induction false} WhileRuns(vars: Symbols, s: Statement, st: Store, fuel: nat, depth: nat, temp: nat, code: Ir.Code,
                                     pc: nat, m: State, outer: seq<Label>, x: Exit) returns (n: nat)
    requires s.WhileStatement?
    requires AtLoop(vars, s, st, depth, temp, code, pc, LowerWhileTest(s.condition) + LowerAll(s.body, depth + 1, temp), m, outer, x)
    ensures Ends(vars, code, m, x, Run(s, st, fuel, depth), fuel, n)
    decreases fuel, Size(s), 0
  {
    hide Step, StepN, Represents, Ends, Ir.At, MemoryIs, ProcessImage, LowerExpr, LowerAll, Eval;
    NotYet(vars, code, m, x);
    if fuel == 0 { return 0; }
    hide Run, RunAll, WellTypedStatement, Supported;
    LoopBodyReady(vars, s);
    WhileMeans(s, st, fuel, depth);
    WhileTested(vars, s, st, depth, temp, code, pc, m, outer, x);
    var T, B, v, o := LowerWhileTest(s.condition), LowerAll(s.body, depth + 1, temp), Eval(s.condition, st), RunAll(s.body, st, fuel - 1, depth + 1);
    n := 1 + |T|;
    if !v.Val? {
      Fails(vars, code, m, v, x, st, fuel, n);
    } else if v.v == 0 {
      ReachesExit(vars, code, m, x, st, fuel, n);
    } else {
      var m2 := StepN(code, m, n);
      AtLoopMemory(vars, s, st, depth, temp, code, pc, T + B, m, outer, x);
      var k := AllRun(vars, s.body, st, fuel - 1, depth + 1, temp, code, m2);
      if o.Normal? || ToHead(o) {
        LoopsBack(vars, code, pc, T + B, m, m2, |B|, o, fuel - 1, k);
        var m3 := StepN(code, m2, k);
        AtLoopAgain(vars, s, st, depth, temp, code, pc, T + B, m, outer, x, o.st, m3);
        var m4 := m.(locals := m3.locals, mem := m3.mem);
        var j := WhileRuns(vars, s, o.st, fuel - 1, depth, temp, code, pc, m4, outer, x);
        Continue(vars, code, m2, k + 1, m4, x, Run(s, o.st, fuel - 1, depth), fuel - 1, fuel - 1, j);
        k := k + 1 + j;
      } else {
        k := LoopLeft(vars, code, m, m2, |B|, x, o, fuel - 1, k);
      }
      Continue(vars, code, m, n, m2, x, Run(s, st, fuel, depth), fuel, fuel - 1, k);
      n := n + k;
    }
  }

  lemma AtLoopMemory(vars: Symbols, s: Statement, st: Store, depth: nat, temp: nat, code: Ir.Code, pc: nat, X: Ir.Code,
                     m: State, outer: seq<Label>, x: Exit)
    requires AtLoop(vars, s, st, depth, temp, code, pc, X, m, outer, x)
    ensures Represents(vars, st, m.mem) && x.io == ProcessImage(m.mem) && x.localCount == |m.locals|
  {}

  /** The loop invariant is kept by an iteration that ended normally. */
  lemma AtLoopAgain(vars: Symbols, s: Statement, st: Store, depth: nat, temp: nat, code: Ir.Code, pc: nat, X: Ir.Code,
                    m: State, outer: seq<Label>, x: Exit, st': Store, t: State)
    requires AtLoop(vars, s, st, depth, temp, code, pc, X, m, outer, x)
    requires t.Running? && |t.locals| == |m.locals| && Represents(vars, st', t.mem) && ProcessImage(t.mem) == ProcessImage(m.mem)
    ensures AtLoop(vars, s, st', depth, temp, code, pc, X, m.(locals := t.locals, mem := t.mem), outer, x)
  {
    hide Represents, ProcessImage, WellTypedStatement, Supported;
  }

  lemma LoopBodyReady(vars: Symbols, s: Statement)
    requires s.WhileStatement? || s.RepeatStatement? || s.ForStatement?
    requires WellTypedStatement(vars, s) && Supported(vars, s)
    ensures WellTypedStatements(vars, s.body) && AllSupported(vars, s.body) && TempsAll(s.body) == Temps(s)
    ensures Sizes(s.body) < Size(s)
  {}

  lemma {:induction false} RepeatRuns(vars: Symbols, s: Statement, st: Store, fuel: nat, depth: nat, temp: nat, code: Ir.Code,
                                      pc: nat, m: State, outer: seq<Label>, x: Exit) returns (n: nat)
    requires s.RepeatStatement?
    requires AtLoop(vars, s, st, depth, temp, code, pc, LowerAll(s.body, depth + 1, temp) + LowerUntil(s.until), m, outer, x)
    ensures Ends(vars, code, m, x, Run(s, st, fuel, depth), fuel, n)
    decreases fuel, Size(s), 1
  {
    hide Step, StepN, Represents, Ends, Ir.At, MemoryIs, ProcessImage, LowerExpr, LowerAll, LowerUntil, Eval;
    NotYet(vars, code, m, x);
    if fuel == 0 { return 0; }
    LoopBodyReady(vars, s);
    assert WellTyped(vars, s.until) && ExprSupported(s.until);
    hide Run, RunAll, WellTypedStatement, Supported;
    RepeatMeans(s, st, fuel, depth);
    var U, B, o := LowerUntil(s.until), LowerAll(s.body, depth + 1, temp), RunAll(s.body, st, fuel - 1, depth + 1);
    var X, m1 := B + U, InLoop(m);
    IterationBegins(code, pc, X, m);
    Ir.AtAppend(code, m1.pc, B, U);
    AtLoopMemory(vars, s, st, depth, temp, code, pc, X, m, outer, x);
    var k := AllRun(vars, s.body, st, fuel - 1, depth + 1, temp, code, m1);
    if o.Normal? {
      NormalEnd(vars, code, m1, |B|, o, fuel - 1, k);
      var m2 := StepN(code, m1, k);
      AtLoopAgain(vars, s, st, depth, temp, code, pc, X, m, outer, x, o.st, m2);
      var j := UntilRuns(vars, s, o.st, fuel, depth, temp, code, pc, m, m2, outer, x);
      Continue(vars, code, m1, k, m2, x, Run(s, st, fuel, depth), fuel - 1, fuel - 1, j);
      k := k + j;
    } else if ToHead(o) {
      LoopsBack(vars, code, pc, X, m, m1, |B|, o, fuel - 1, k);
      var t := StepN(code, m1, k);
      AtLoopAgain(vars, s, st, depth, temp, code, pc, X, m, outer, x, o.st, t);
      var m2 := m.(locals := t.locals, mem := t.mem);
      var j := RepeatRuns(vars, s, o.st, fuel - 1, depth, temp, code, pc, m2, outer, x);
      Continue(vars, code, m1, k + 1, m2, x, Run(s, o.st, fuel - 1, depth), fuel - 1, fuel - 1, j);
      k := k + 1 + j;
    } else {
      k := LoopLeft(vars, code, m, m1, |B|, x, o, fuel - 1, k);
    }
    Continue(vars, code, m, 1, m1, x, Run(s, st, fuel, depth), fuel, fuel - 1, k);
    n := 1 + k;
  }

  /** The end of a REPEAT iteration whose body ended in `st`: the condition, and the iterations that remain. */
  lemma {:induction false} UntilRuns(vars: Symbols, s: Statement, st: Store, fuel: nat, depth: nat, temp: nat, code: Ir.Code,
                                     pc: nat, m: State, t: State, outer: seq<Label>, x: Exit) returns (n: nat)
    requires s.RepeatStatement? && m.Running? && t.Running? && fuel > 0 && InLoop(m).Running?
    requires WellTyped(vars, s.until) && ExprSupported(s.until)
    requires var B, U := LowerAll(s.body, depth + 1, temp), LowerUntil(s.until);
             && AtLoop(vars, s, st, depth, temp, code, pc, B + U, m.(locals := t.locals, mem := t.mem), outer, x)
             && t == InLoop(m).(pc := pc + 2 + |B|, locals := t.locals, mem := t.mem) && Ir.At(code, t.pc, U)
    ensures var v := Eval(s.until, st);
            Ends(vars, code, t, x,
                 if !v.Val? then Failed(v, st) else if v.v != 0 then Normal(st) else Run(s, st, fuel - 1, depth), fuel - 1, n)
    decreases fuel, Size(s), 0
  {
    hide Step, StepN, Represents, Ends, Ir.At, MemoryIs, ProcessImage, LowerExpr, LowerAll, LowerUntil, Eval, Run;
    hide WellTypedStatement, Supported;
    var X, v, t0 := LowerAll(s.body, depth + 1, temp) + LowerUntil(s.until), Eval(s.until, st), m.(locals := t.locals, mem := t.mem);
    AtLoopMemory(vars, s, st, depth, temp, code, pc, X, t0, outer, x);
    UntilTested(vars, s, st, code, t, outer, Label(pc + |LoopCode(X)|, |m.stack|), Label(m.pc, |m.stack|));
    n := |LowerUntil(s.until)|;
    if !v.Val? {
      Fails(vars, code, t, v, x, st, fuel - 1, n);
    } else if v.v != 0 {
      ReachesExit(vars, code, t, x, st, fuel - 1, n);
    } else {
      var t1 := StepN(code, t, n);
      var j := RepeatRuns(vars, s, st, fuel - 1, depth, temp, code, pc, t0, outer, x);
      Again(vars, code, pc, X, m, t1, x, Run(s, st, fuel - 1, depth), fuel - 1, j);
      Continue(vars, code, t, n, t1, x, Run(s, st, fuel - 1, depth), fuel - 1, fuel - 1, 1 + j);
      n := n + (1 + j);
    }
  }

  lemma {:induction false} IfRuns(vars: Symbols, s: Statement, st: Store, fuel: nat, depth: nat, temp: nat,
                                  code: Ir.Code, m: State) returns (n: nat)
    requires Ready(vars, s, st, depth, temp, code, m) && s.IfStatement?
    ensures Ends(vars, code, m, After(m, |Lower(s, depth, temp)|), Run(s, st, fuel, depth), fuel, n)
    decreases fuel, Size(s), 0
  {
    hide Step, StepN, Represents, Ends, Ir.At, MemoryIs, WellNested, ElsePart, LowerExpr, LowerAll, LowerRest, Eval, Run;
    hide ProcessImage, WellTyped, ExprSupported, WellTypedStatements, AllSupported;
    var later := temp + TempsAll(s.thenBranch);
    var C, T, R := LowerExpr(s.condition), LowerAll(s.thenBranch, depth, temp), LowerRest(s, depth, later);
    var x, v, o := After(m, |Lower(s, depth, temp)|), Eval(s.condition, st), Run(s, st, fuel, depth);
    IfBranches(vars, s, depth, later);
    IfMeans(s, st, fuel, depth);
    assert Lower(s, depth, temp) == C + IfCode(T, R) && |IfCode(T, R)| == |T| + |R| + 2;
    hide RunAll, WellTypedStatement, Supported, Lower, Temps, TempsAll, IfCode;
    Ir.AtAppend(code, m.pc, C, IfCode(T, R));
    ExprRuns(vars, s.condition, st, code, m);
    MemoryIsOwn(vars, st, m.mem);
    if !v.Val? {
      Fails(vars, code, m, v, x, st, fuel, |C|);
      return |C|;
    }
    AllAreWellNested(s.thenBranch, depth, temp, 2 * depth);
    RestIsElsePart(s, depth, later, 2 * depth);
    Selected(code, m, C, v.v, T, R, 2 * depth);
    hide Computes;
    var k := |C| + 1;
    var m2 := StepN(code, m, k);
    if v.v != 0 {
      n := AllRun(vars, s.thenBranch, st, fuel, depth, temp, code, m2);
      n := Arm(vars, code, m, k, m2, |T|, x, RunAll(s.thenBranch, st, fuel, depth), fuel, n);
    } else if s.elsifs != [] {
      n := StatementRuns(vars, NextElsif(s), st, fuel, depth, later, code, m2);
      n := Arm(vars, code, m, k, m2, |R[1..]|, x, Run(NextElsif(s), st, fuel, depth), fuel, n);
    } else if s.otherwise.ElseBody? {
      n := AllRun(vars, s.otherwise.body, st, fuel, depth, later, code, m2);
      n := Arm(vars, code, m, k, m2, |R[1..]|, x, RunAll(s.otherwise.body, st, fuel, depth), fuel, n);
    } else {
      n := k;
      Skipped(vars, code, m, k, x, st, fuel);
    }
  }

  lemma MemoryIsOwn(vars: Symbols, st: Store, mem: Memory)
    requires Represents(vars, st, mem)
    ensures MemoryIs(vars, st, mem, ProcessImage(mem))
  {}

  lemma {:induction false} CaseRuns(vars: Symbols, s: Statement, st: Store, fuel: nat, depth: nat, temp: nat,
                                    code: Ir.Code, m: State) returns (n: nat)
    requires Ready(vars, s, st, depth, temp, code, m) && s.CaseStatement?
    ensures Ends(vars, code, m, After(m, |Lower(s, depth, temp)|), Run(s, st, fuel, depth), fuel, n)
    decreases fuel, Size(s), 0
  {
    hide Step, StepN, Represents, Ends, Ir.At, MemoryIs, ProcessImage, LowerExpr, LowerBranches, Eval;
    var C, B := LowerExpr(s.selector), LowerBranches(s.branches, s.otherwise, temp, depth, temp + 1);
    var x, v := After(m, |Lower(s, depth, temp)|), Eval(s.selector, st);
    CaseMeans(vars, s, st, fuel, depth);
    hide Run, WellTypedStatement, Supported;
    Ir.AtAppend(code, m.pc, C + [Ir.LocalSet(temp)], B);
    Ir.AtAppend(code, m.pc, C, [Ir.LocalSet(temp)]);
    ExprRuns(vars, s.selector, st, code, m);
    MemoryIsOwn(vars, st, m.mem);
    if !v.Val? {
      Fails(vars, code, m, v, x, st, fuel, |C|);
      return |C|;
    }
    SelectorSet(code, Pushed(m, C, v.v), m.stack, v.v, temp);
    ThenOne(code, m, |C|);
    var k, m2 := |C| + 1, m.(pc := m.pc + |C| + 1, locals := m.locals[temp := v.v]);
    n := BranchesRun(vars, s.branches, s.otherwise, v.v, st, fuel, temp, depth, temp + 1, code, m2);
    Continue(vars, code, m, k, m2, x, Run(s, st, fuel, depth), fuel, fuel, n);
    n := k + n;
  }

  lemma SelectorSet(code: Ir.Code, m: State, below: seq<I32>, v: I32, temp: nat)
    requires m.Running? && Ir.At(code, m.pc, [Ir.LocalSet(temp)]) && m.stack == below + [v] && temp < |m.locals|
    ensures Step(code, m) == m.(pc := m.pc + 1, stack := below, locals := m.locals[temp := v])
  {
    Ir.AtFirst(code, m.pc, [Ir.LocalSet(temp)]);
    assert m.stack[..|m.stack| - 1] == below;
  }

  lemma CaseMeans(vars: Symbols, s: Statement, st: Store, fuel: nat, depth: nat)
    requires s.CaseStatement? && WellTypedStatement(vars, s) && Supported(vars, s)
    ensures var v := Eval(s.selector, st);
            Run(s, st, fuel, depth) == if v.Val? then RunBranches(s.branches, s.otherwise, v.v, st, fuel, depth) else Failed(v, st)
    ensures WellTyped(vars, s.selector) && ExprSupported(s.selector)
    ensures WellTypedBranches(vars, s.branches) && WellTypedElse(vars, s.otherwise)
    ensures BranchesSupported(vars, s.branches) && ElseSupported(vars, s.otherwise)
    ensures Temps(s) == 1 + TempsBranches(s.branches) + TempsElse(s.otherwise)
    ensures CaseSizes(s.branches) + ElseSize(s.otherwise) < Size(s)
  {}

  lemma {:induction false} BranchesRun(vars: Symbols, bs: seq<CaseBranch>, e: ElseBranch, v: I32, st: Store, fuel: nat, sel: nat,
                                       depth: nat, temp: nat, code: Ir.Code, m: State) returns (n: nat)
    requires m.Running? && Represents(vars, st, m.mem) && WellTypedBranches(vars, bs) && WellTypedElse(vars, e)
    requires BranchesSupported(vars, bs) && ElseSupported(vars, e)
    requires Ir.At(code, m.pc, LowerBranches(bs, e, sel, depth, temp))
    requires sel < |m.locals| && m.locals[sel] == v && temp + TempsBranches(bs) + TempsElse(e) <= |m.locals|
    ensures Ends(vars, code, m, After(m, |LowerBranches(bs, e, sel, depth, temp)|), RunBranches(bs, e, v, st, fuel, depth), fuel, n)
    decreases fuel, CaseSizes(bs) + ElseSize(e), 1
  {
    hide Step, StepN, Represents, LowerTests;
    if bs == [] {
      if e.NoElse? {
        StepNone(code, m);
        n := 0;
      } else {
        n := AllRun(vars, e.body, st, fuel, depth, temp, code, m);
      }
    } else if bs[0].values == [] {
      n := BranchesRun(vars, bs[1..], e, v, st, fuel, sel, depth, temp, code, m);
    } else {
      n := BranchRuns(vars, bs, e, v, st, fuel, sel, depth, temp, code, m);
    }
  }

  lemma BranchMeans(vars: Symbols, bs: seq<CaseBranch>, e: ElseBranch, v: I32, st: Store, fuel: nat, depth: nat)
    requires bs != [] && WellTypedBranches(vars, bs) && BranchesSupported(vars, bs)
    ensures RunBranches(bs, e, v, st, fuel, depth)
         == if v in bs[0].values then Out(RunAll(bs[0].body, st, fuel, depth), 1)
            else Out(RunBranches(bs[1..], e, v, st, fuel, depth), if bs[0].values == [] then 0 else 1)
    ensures WellTypedStatements(vars, bs[0].body) && AllSupported(vars, bs[0].body)
    ensures WellTypedBranches(vars, bs[1..]) && BranchesSupported(vars, bs[1..])
    ensures forall x <- bs[0].values :: I32_MIN <= x < 0x8000_0000
    ensures Sizes(bs[0].body) < CaseSizes(bs) && CaseSizes(bs[1..]) < CaseSizes(bs)
    ensures bs[0].values != [] ==> TempsBranches(bs) == TempsAll(bs[0].body) + TempsBranches(bs[1..])
  {}

  lemma {:induction false} BranchRuns(vars: Symbols, bs: seq<CaseBranch>, e: ElseBranch, v: I32, st: Store, fuel: nat, sel: nat,
                                      depth: nat, temp: nat, code: Ir.Code, m: State) returns (n: nat)
    requires m.Running? && Represents(vars, st, m.mem) && WellTypedBranches(vars, bs) && WellTypedElse(vars, e)
    requires BranchesSupported(vars, bs) && ElseSupported(vars, e) && bs != [] && bs[0].values != []
    requires Ir.At(code, m.pc, LowerBranches(bs, e, sel, depth, temp))
    requires sel < |m.locals| && m.locals[sel] == v && temp + TempsBranches(bs) + TempsElse(e) <= |m.locals|
    ensures Ends(vars, code, m, After(m, |LowerBranches(bs, e, sel, depth, temp)|), RunBranches(bs, e, v, st, fuel, depth), fuel, n)
    decreases fuel, CaseSizes(bs) + ElseSize(e), 0
  {
    hide Step, StepN, Represents, Ends, Ir.At, MemoryIs, ProcessImage, LowerTests, LowerAll, LowerBranches, Computes, NoValues;
    hide RunBranches, RunAll, WellTypedBranches, BranchesSupported, TempsBranches, TempsAll, TempsElse;
    hide WellTypedElse, ElseSupported, IfCode, CaseSizes, ElseSize, Sizes;
    BranchMeans(vars, bs, e, v, st, fuel, depth);
    BranchSelected(bs, e, v, sel, depth, temp, code, m);
    var later := temp + TempsAll(bs[0].body);
    var T, next := LowerAll(bs[0].body, depth, temp), LowerBranches(bs[1..], e, sel, depth, later);
    var x, o := After(m, |LowerBranches(bs, e, sel, depth, temp)|), RunBranches(bs, e, v, st, fuel, depth);
    var k := |LowerTests(bs[0].values, sel)| + 1;
    var m2 := StepN(code, m, k);
    if v in bs[0].values {
      n := AllRun(vars, bs[0].body, st, fuel, depth, temp, code, m2);
      n := Arm(vars, code, m, k, m2, |T|, x, RunAll(bs[0].body, st, fuel, depth), fuel, n);
    } else if !(NoValues(bs[1..]) && e.NoElse?) {
      n := BranchesRun(vars, bs[1..], e, v, st, fuel, sel, depth, later, code, m2);
      n := Arm(vars, code, m, k, m2, |next|, x, RunBranches(bs[1..], e, v, st, fuel, depth), fuel, n);
    } else {
      NoValuesFallThrough(bs[1..], v, st, fuel, depth);
      n := k;
      Skipped(vars, code, m, k, x, st, fuel);
    }
  }

  /** Where the machine stands after the tests of a branch. */
  lemma BranchSelected(bs: seq<CaseBranch>, e: ElseBranch, v: I32, sel: nat, depth: nat, temp: nat, code: Ir.Code, m: State)
    requires m.Running? && bs != [] && bs[0].values != [] && sel < |m.locals| && m.locals[sel] == v
    requires forall w <- bs[0].values :: I32_MIN <= w < 0x8000_0000
    requires Ir.At(code, m.pc, LowerBranches(bs, e, sel, depth, temp))
    ensures var later := temp + TempsAll(bs[0].body);
            var T, next := LowerAll(bs[0].body, depth, temp), LowerBranches(bs[1..], e, sel, depth, later);
            var end := m.pc + |LowerBranches(bs, e, sel, depth, temp)|;
            var k := |LowerTests(bs[0].values, sel)| + 1;
            var m2, inside := StepN(code, m, k), m.labels + [Label(end, |m.stack|)];
            if v in bs[0].values then
              && m2 == m.(pc := m.pc + k, labels := inside) && Ir.At(code, m2.pc, T)
              && (Ir.At(code, m2.pc + |T|, [Ir.Else]) || (Ir.At(code, m2.pc + |T|, [Ir.End]) && end == m2.pc + |T| + 1))
            else if !(NoValues(bs[1..]) && e.NoElse?) then
              && m2 == m.(pc := m.pc + k + |T| + 1, labels := inside) && Ir.At(code, m2.pc, next)
              && Ir.At(code, m2.pc + |next|, [Ir.End]) && end == m2.pc + |next| + 1
            else m2 == m.(pc := end)
  {
    hide Step, StepN, Ir.At, WellNested, ElsePart, LowerTests, LowerAll, TempsAll;
    var later := temp + TempsAll(bs[0].body);
    var tests, T := LowerTests(bs[0].values, sel), LowerAll(bs[0].body, depth, temp);
    var next := LowerBranches(bs[1..], e, sel, depth, later);
    var R := if NoValues(bs[1..]) && e.NoElse? then [] else [Ir.Else] + next;
    assert LowerBranches(bs, e, sel, depth, temp) == tests + IfCode(T, R) && |IfCode(T, R)| == |T| + |R| + 2;
    hide LowerBranches, IfCode, Computes;
    Ir.AtAppend(code, m.pc, tests, IfCode(T, R));
    TestsRun(bs[0].values, sel, code, m);
    AllAreWellNested(bs[0].body, depth, temp, 2 * depth);
    BranchesAreWellNested(bs[1..], e, sel, depth, later, 2 * depth);
    assert R != [] ==> R[1..] == next;
    ElseOf(R, 2 * depth);
    Selected(code, m, tests, Truth(v in bs[0].values), T, R, 2 * depth);
  }

  lemma ElseOf(R: Ir.Code, base: nat)
    requires R != [] ==> R[0] == Ir.Else && WellNested(R[1..], base)
    ensures ElsePart(R, base)
  {}

  // ---- FOR -----------------------------------------------------------------------

  lemma ForExpressions(vars: Symbols, s: Statement, st: Store, mem: Memory)
    requires s.ForStatement? && WellTypedStatement(vars, s) && Supported(vars, s) && Represents(vars, st, mem)
    ensures WellTyped(vars, ForExceeded(s)) && ExprSupported(ForExceeded(s))
    ensures WellTyped(vars, ForNext(s)) && ExprSupported(ForNext(s))
    ensures var c := Cell(s.variable, 0);
            && IsCell(vars, c) && CellType(vars, c) == Dint && Address(vars, c) == s.varOffset
            && Wrap32(Get(st, c)) == Get(st, c)
    ensures Eval(ForVariable(s), st) == Val(Get(st, Cell(s.variable, 0)))
  {
    var c := Cell(s.variable, 0);
    assert IsCell(vars, c);
    AdmittedFits(Dint, st[c]);
    if s.step.Some? { SupportedIsWord(vars, s.step.value); }
  }

  /** The value tested at the head of a FOR iteration, and the value stored at its end. */
  lemma ForValues(vars: Symbols, s: Statement, st: Store, mem: Memory)
    requires s.ForStatement? && WellTypedStatement(vars, s) && Supported(vars, s) && Represents(vars, st, mem)
    ensures Eval(ForExceeded(s), st)
         == var b := Eval(s.last, st); if b.Val? then Val(Truth(Get(st, Cell(s.variable, 0)) > b.v)) else b
    ensures Eval(ForNext(s), st)
         == var d := EvalStep(s.step, st); if d.Val? then Val(Wrap32(Get(st, Cell(s.variable, 0)) + d.v)) else d
  {
    ForExpressions(vars, s, st, mem);
  }

  /** Storing `v` into the FOR variable, as its initialisation and its step do. */
  lemma ForStores(vars: Symbols, s: Statement, e: TypedExpr, st: Store, code: Ir.Code, m: State)
    requires m.Running? && Represents(vars, st, m.mem)
    requires s.ForStatement? && WellTypedStatement(vars, s) && Supported(vars, s)
    requires WellTyped(vars, e) && ExprSupported(e)
    requires Ir.At(code, m.pc, [Ir.I32Const(0)] + LowerExpr(e) + [Ir.I32Store(CastU32(s.varOffset))])
    ensures var v, t := Eval(e, st), StepN(code, m, |LowerExpr(e)| + 2);
            match v
            case Val(x) => && t.Running? && t == m.(pc := m.pc + |LowerExpr(e)| + 2, mem := t.mem)
                           && MemoryIs(vars, st[Cell(s.variable, 0) := x], t.mem, ProcessImage(m.mem))
            case Trap => t == WasmMachine.Trapped(m.mem)
            case Undefined => true
  {
    hide Step, StepN, LowerExpr, Eval, MemoryIs, Ir.At;
    hide Represents, WellTypedStatement, Supported, IsCell, Address, CellType, Width, WellTyped, ExprSupported, Computes, LowBytes;
    var zero, V, store := [Ir.I32Const(0)], LowerExpr(e), [Ir.I32Store(CastU32(s.varOffset))];
    Ir.AtAppend(code, m.pc, zero + V, store);
    Ir.AtAppend(code, m.pc, zero, V);
    ForCell(vars, s, st, m.mem);
    Consts(code, m, 0);
    ExprRuns(vars, e, st, code, Pushed(m, zero, 0));
    StoreCode(vars, st, code, m, zero, V, Cell(s.variable, 0), 0, s.varOffset, Eval(e, st));
  }

  lemma ForCell(vars: Symbols, s: Statement, st: Store, mem: Memory)
    requires s.ForStatement? && WellTypedStatement(vars, s) && Supported(vars, s) && Represents(vars, st, mem)
    ensures var c := Cell(s.variable, 0);
            && IsCell(vars, c) && CellType(vars, c) == Dint && Width(vars, c) == 4 && Address(vars, c) == s.varOffset
            && CastU32(s.varOffset) == s.varOffset
  {
    ForExpressions(vars, s, st, mem);
    WordCellInside(vars, Cell(s.variable, 0));
  }

  lemma {:induction false} ForRuns(vars: Symbols, s: Statement, st: Store, fuel: nat, depth: nat, temp: nat,
                                   code: Ir.Code, m: State) returns (n: nat)
    requires Ready(vars, s, st, depth, temp, code, m) && s.ForStatement?
    ensures Ends(vars, code, m, After(m, |Lower(s, depth, temp)|), Run(s, st, fuel, depth), fuel, n)
    decreases fuel, Size(s), 2
  {
    hide Step, StepN, Represents, Ends, Ir.At, MemoryIs, ProcessImage, WellNested, LowerExpr, LowerAll, LowerForTest, LowerForStep, Eval;
    var B := LowerAll(s.body, depth + 1, temp);
    var X := LowerForTest(s) + B + LowerForStep(s);
    var x, v := After(m, |Lower(s, depth, temp)|), Eval(s.first, st);
    ForMeans(vars, s, st, fuel, depth);
    hide Run, RunIterations, WellTypedStatement, Supported, Temps;
    Ir.AtAppend(code, m.pc, LowerForInit(s), LoopCode(X));
    ForStores(vars, s, s.first, st, code, m);
    MemoryIsOwn(vars, st, m.mem);
    n := |LowerForInit(s)|;
    if v.Val? {
      var m1, st1 := StepN(code, m, n), st[Cell(s.variable, 0) := v.v];
      MemoryRepresents(vars, st1, m1.mem, ProcessImage(m.mem));
      ForPartsAreWellNested(s, 2 * depth);
      AllAreWellNested(s.body, depth + 1, temp, 2 * depth + 2);
      WellNestedAppend(LowerForTest(s), B, 2 * depth + 2);
      WellNestedAppend(LowerForTest(s) + B, LowerForStep(s), 2 * depth + 2);
      LoopEntered(vars, s, st1, depth, temp, code, X, m1, 2 * depth + 2);
      var m2 := StepN(code, m1, 1);
      hide AtLoop, LoopCode;
      var k := IterationsRun(vars, s, st1, fuel, depth, temp, code, m1.pc, m2, m.labels, x);
      Continue(vars, code, m1, 1, m2, x, RunIterations(s, st1, fuel, depth), fuel, fuel, k);
      Continue(vars, code, m, n, m1, x, RunIterations(s, st1, fuel, depth), fuel, fuel, 1 + k);
      n := n + (1 + k);
    } else {
      Fails(vars, code, m, v, x, st, fuel, n);
    }
  }

  lemma MemoryRepresents(vars: Symbols, st: Store, mem: Memory, io: seq<Byte>)
    requires MemoryIs(vars, st, mem, io)
    ensures Represents(vars, st, mem) && ProcessImage(mem) == io
  {}

  lemma ForMeans(vars: Symbols, s: Statement, st: Store, fuel: nat, depth: nat)
    requires s.ForStatement? && WellTypedStatement(vars, s) && Supported(vars, s)
    ensures var v := Eval(s.first, st);
            Run(s, st, fuel, depth) == if v.Val? then RunIterations(s, st[Cell(s.variable, 0) := v.v], fuel, depth) else Failed(v, st)
    ensures WellTyped(vars, s.first) && ExprSupported(s.first)
  {}

  lemma {:induction false} IterationsRun(vars: Symbols, s: Statement, st: Store, fuel: nat, depth: nat, temp: nat, code: Ir.Code,
                                         pc: nat, m: State, outer: seq<Label>, x: Exit) returns (n: nat)
    requires s.ForStatement?
    requires AtLoop(vars, s, st, depth, temp, code, pc, LowerForTest(s) + LowerAll(s.body, depth + 1, temp) + LowerForStep(s),
                    m, outer, x)
    ensures Ends(vars, code, m, x, RunIterations(s, st, fuel, depth), fuel, n)
    decreases fuel, Size(s), 0
  {
    hide Step, StepN, Represents, Ends, Ir.At, MemoryIs, ProcessImage, LowerExpr, LowerForTest, LowerForStep, LowerAll, Eval;
    hide RunIterations, RunAll, EvalStep, Wrap32;
    NotYet(vars, code, m, x);
    IterateNone(s, st, depth);
    if fuel == 0 { return 0; }
    LoopBodyReady(vars, s);
    IterateMeans(s, st, fuel, depth);
    hide WellTypedStatement, Supported;
    var T, B, U := LowerForTest(s), LowerAll(s.body, depth + 1, temp), LowerForStep(s);
    var X, m1, b, o := T + B + U, InLoop(m), Eval(s.last, st), RunAll(s.body, st, fuel - 1, depth + 1);
    IterationBegins(code, pc, X, m);
    Ir.AtAppend(code, m1.pc, T + B, U);
    Ir.AtAppend(code, m1.pc, T, B);
    AtLoopMemory(vars, s, st, depth, temp, code, pc, X, m, outer, x);
    ForTested(vars, s, st, code, m1, outer, Label(pc + |LoopCode(X)|, |m.stack|), Label(m.pc, |m.stack|));
    Then(code, m, 1, |T|);
    n := 1 + |T|;
    if !b.Val? {
      Fails(vars, code, m, b, x, st, fuel, n);
    } else if Get(st, Cell(s.variable, 0)) > b.v {
      ReachesExit(vars, code, m, x, st, fuel, n);
    } else {
      var m2 := m1.(pc := m1.pc + |T|);
      var k := AllRun(vars, s.body, st, fuel - 1, depth + 1, temp, code, m2);
      if o.Normal? {
        NormalEnd(vars, code, m2, |B|, o, fuel - 1, k);
        var m3 := StepN(code, m2, k);
        AtLoopAgain(vars, s, st, depth, temp, code, pc, X, m, outer, x, o.st, m3);
        var j := StepRuns(vars, s, o.st, fuel - 1, depth, temp, code, pc, m, m3, outer, x);
        Continue(vars, code, m2, k, m3, x, RunIterations(s, st, fuel, depth), fuel - 1, fuel - 1, j);
        k := k + j;
      } else if ToHead(o) {
        LoopsBack(vars, code, pc, X, m, m2, |B|, o, fuel - 1, k);
        var t := StepN(code, m2, k);
        AtLoopAgain(vars, s, st, depth, temp, code, pc, X, m, outer, x, o.st, t);
        var m3 := m.(locals := t.locals, mem := t.mem);
        var j := IterationsRun(vars, s, o.st, fuel - 1, depth, temp, code, pc, m3, outer, x);
        Continue(vars, code, m2, k + 1, m3, x, RunIterations(s, o.st, fuel - 1, depth), fuel - 1, fuel - 1, j);
        k := k + 1 + j;
      } else {
        k := LoopLeft(vars, code, m, m2, |B|, x, o, fuel - 1, k);
      }
      Continue(vars, code, m, n, m2, x, RunIterations(s, st, fuel, depth), fuel, fuel - 1, k);
      n := n + k;
    }
  }

  lemma IterateNone(s: Statement, st: Store, depth: nat)
    requires s.ForStatement?
    ensures RunIterations(s, st, 0, depth) == OutOfFuel
  {}

  /** The end of a FOR iteration whose body ended in `st`: step, and the iterations that remain. */
  lemma {:induction false} StepRuns(vars: Symbols, s: Statement, st: Store, fuel: nat, depth: nat, temp: nat, code: Ir.Code,
                                    pc: nat, m: State, t: State, outer: seq<Label>, x: Exit) returns (n: nat)
    requires s.ForStatement? && m.Running? && t.Running?
    requires var X := LowerForTest(s) + LowerAll(s.body, depth + 1, temp) + LowerForStep(s);
             && AtLoop(vars, s, st, depth, temp, code, pc, X, m.(locals := t.locals, mem := t.mem), outer, x)
             && t == InLoop(m).(pc := pc + 2 + |X| - |LowerForStep(s)|, locals := t.locals, mem := t.mem)
             && Ir.At(code, t.pc, LowerForStep(s))
    ensures var d := EvalStep(s.step, st);
            Ends(vars, code, t, x,
                 if d.Val?
                 then RunIterations(s, st[Cell(s.variable, 0) := Wrap32(Get(st, Cell(s.variable, 0)) + d.v)], fuel, depth)
                 else Failed(d, st), fuel, n)
    decreases fuel, Size(s), 1
  {
    hide Step, StepN, Represents, Ends, Ir.At, MemoryIs, ProcessImage, LowerExpr, LowerForTest, LowerForStep, LowerAll, Eval;
    hide WellTypedStatement, Supported, IsCell, Address, RunIterations, Wrap32, WellTyped, ExprSupported;
    var X := LowerForTest(s) + LowerAll(s.body, depth + 1, temp) + LowerForStep(s);
    AtLoopMemory(vars, s, st, depth, temp, code, pc, X, m.(locals := t.locals, mem := t.mem), outer, x);
    ForCode(s);
    ForExpressions(vars, s, st, t.mem);
    ForValues(vars, s, st, t.mem);
    ForStores(vars, s, ForNext(s), st, code, t);
    n := |LowerForStep(s)|;
    var v := Eval(ForNext(s), st);
    hide ForNext, EvalStep;
    if v.Val? {
      var t1 := StepN(code, t, n);
      var st1 := st[Cell(s.variable, 0) := v.v];
      MemoryRepresents(vars, st1, t1.mem, ProcessImage(t.mem));
      AtLoopAgain(vars, s, st, depth, temp, code, pc, X, m.(locals := t.locals, mem := t.mem), outer, x, st1, t1);
      var k := IterationsRun(vars, s, st1, fuel, depth, temp, code, pc, m.(locals := t1.locals, mem := t1.mem), outer, x);
      Again(vars, code, pc, X, m, t1, x, RunIterations(s, st1, fuel, depth), fuel, k);
      Continue(vars, code, t, n, t1, x, RunIterations(s, st1, fuel, depth), fuel, fuel, 1 + k);
      n := n + (1 + k);
    } else {
      MemoryIsOwn(vars, st, t.mem);
      Fails(vars, code, t, v, x, st, fuel, n);
    }
  }
}
