/** Lowered statements do on the machine what the statements mean. */
module StatementCorrect {
  import opened Words
  import opened TypedTree
  import opened TypeChecker
  import opened Layout
  import opened SourceSemantics
  import opened BranchSemantics
  import Ir
  import opened WasmMachine
  import opened Lowering
  import opened Nesting
  import opened ExprCorrect

  // ---- Ends of runs ----------------------------------------------------------

  /** Where a piece of code is left, and the process-image bytes it must not touch. */
  datatype Exit = Exit(pc: nat, stack: seq<I32>, labels: seq<Label>, localCount: nat, io: seq<Byte>)

  /** The bytes below the first variable. */
  function ProcessImage(mem: Memory): seq<Byte>
  {
    if |mem| < FIRST_OFFSET then mem else mem[..FIRST_OFFSET]
  }

  function After(m: State, len: nat): Exit
    requires m.Running?
  {
    Exit(m.pc + len, m.stack, m.labels, |m.locals|, ProcessImage(m.mem))
  }

  ghost predicate MemoryIs(vars: Symbols, st: Store, mem: Memory, io: seq<Byte>)
  {
    Represents(vars, st, mem) && ProcessImage(mem) == io
  }

  ghost predicate Leaves(vars: Symbols, t: State, x: Exit, st: Store)
  {
    && t.Running? && t.pc == x.pc && t.stack == x.stack && t.labels == x.labels && |t.locals| == x.localCount
    && MemoryIs(vars, st, t.mem, x.io)
  }

  /** The machine stands at a branch to the `target`-th label around the code, with the labels of enclosing constructs
      within the code still open. */
  ghost predicate AtBranch(vars: Symbols, code: Ir.Code, t: State, x: Exit, st: Store, target: nat)
  {
    && t.Running? && x.labels <= t.labels && Ir.At(code, t.pc, [Ir.Br(|t.labels| - |x.labels| + target)])
    && t.stack == x.stack && |t.locals| == x.localCount && MemoryIs(vars, st, t.mem, x.io)
  }

  /** The branch goes exactly to its label: execution continues there, with the labels outside it. */
  lemma BranchTaken(vars: Symbols, code: Ir.Code, t: State, x: Exit, st: Store, target: nat)
    requires AtBranch(vars, code, t, x, st, target) && target < |x.labels|
    requires x.labels[|x.labels| - 1 - target].height == |x.stack|
    ensures var k := |x.labels| - 1 - target;
            Step(code, t) == t.(pc := x.labels[k].continuation, labels := x.labels[..k])
  {
    Ir.AtFirst(code, t.pc, [Ir.Br(|t.labels| - |x.labels| + target)]);
    var k := |x.labels| - 1 - target;
    assert t.labels[k] == x.labels[k] && t.labels[..k] == x.labels[..k] && t.stack[..|x.stack|] == t.stack;
  }

  /** `n` machine steps from `m` bring about the outcome `o`; running out of fuel means that the machine
      has been running for at least that many steps. */
  ghost predicate Ends(vars: Symbols, code: Ir.Code, m: State, x: Exit, o: Outcome, fuel: nat, n: nat)
  {
    var t := StepN(code, m, n);
    match o
    case Normal(st) => Leaves(vars, t, x, st)
    case Returned(st) => t.Done? && MemoryIs(vars, st, t.mem, x.io)
    case Trapped(st) => t.Trapped? && MemoryIs(vars, st, t.mem, x.io)
    case Jumped(st, target) => AtBranch(vars, code, t, x, st, target)
    case Exited(_) => false
    case Continued(_) => false
    case NoMeaning => true
    case OutOfFuel => n >= fuel && t.Running?
  }

  lemma Prefix(vars: Symbols, code: Ir.Code, m: State, k: nat, x: Exit, o: Outcome, fuel: nat, less: nat, n: nat)
    requires Ends(vars, code, StepN(code, m, k), x, o, less, n) && fuel <= less + k
    ensures Ends(vars, code, m, x, o, fuel, k + n)
  {
    Then(code, m, k, n);
  }

  /** An expression that fails ends the statement. */
  lemma ExprFails(vars: Symbols, code: Ir.Code, m: State, c: Ir.Code, v: Value, st: Store, x: Exit, fuel: nat)
    requires m.Running? && Computes(code, m, c, v) && !v.Val? && MemoryIs(vars, st, m.mem, x.io)
    ensures Ends(vars, code, m, x, Failed(v, st), fuel, |c|)
  {}

  // ---- Structured control on the flat code -------------------------------------

  lemma FindUnfold(code: Ir.Code, pc: nat, i: Ir.Instruction, depth: nat)
    requires Ir.At(code, pc, [i])
    ensures FindEnd(code, pc, depth) == match i
              case End => if depth == 0 then pc else FindEnd(code, pc + 1, depth - 1)
              case Block | Loop | If => FindEnd(code, pc + 1, depth + 1)
              case _ => FindEnd(code, pc + 1, depth)
    ensures depth == 0 && (i.Else? || i.End?) ==> FindElse(code, pc, depth) == pc
  {
    Ir.AtFirst(code, pc, [i]);
  }

  lemma LoopParts(code: Ir.Code, pc: nat, X: Ir.Code)
    requires Ir.At(code, pc, LoopCode(X))
    ensures Ir.At(code, pc, [Ir.Block]) && Ir.At(code, pc + 1, [Ir.Loop]) && Ir.At(code, pc + 2, X)
    ensures Ir.At(code, pc + 2 + |X|, [Ir.Br(0)])
    ensures Ir.At(code, pc + 3 + |X|, [Ir.End]) && Ir.At(code, pc + 4 + |X|, [Ir.End])
  {
    var open, close := [Ir.Block] + [Ir.Loop], [Ir.Br(0)] + [Ir.End] + [Ir.End];
    assert LoopCode(X) == open + X + close;
    Ir.AtAppend(code, pc, open + X, close);
    Ir.AtAppend(code, pc, open, X);
    Ir.AtAppend(code, pc, [Ir.Block], [Ir.Loop]);
    Ir.AtAppend(code, pc + 2 + |X|, [Ir.Br(0)] + [Ir.End], [Ir.End]);
    Ir.AtAppend(code, pc + 2 + |X|, [Ir.Br(0)], [Ir.End]);
  }

  lemma LoopEnd(code: Ir.Code, pc: nat, X: Ir.Code, base: nat)
    requires Ir.At(code, pc, LoopCode(X)) && WellNested(X, base)
    ensures FindEnd(code, pc + 1, 0) + 1 == pc + |LoopCode(X)|
  {
    hide FindEnd, FindElse, Ir.At, WellNested;
    LoopParts(code, pc, X);
    FindUnfold(code, pc + 1, Ir.Loop, 0);
    SkipWellNested(code, pc + 2, X, base);
    FindUnfold(code, pc + 2 + |X|, Ir.Br(0), 1);
    FindUnfold(code, pc + 3 + |X|, Ir.End, 1);
    FindUnfold(code, pc + 4 + |X|, Ir.End, 0);
  }

  /** The label of the block of a loop continues behind the whole loop. */
  lemma EnterLoop(code: Ir.Code, m: State, X: Ir.Code, base: nat)
    requires m.Running? && Ir.At(code, m.pc, LoopCode(X)) && WellNested(X, base)
    ensures Step(code, m) == m.(pc := m.pc + 1, labels := m.labels + [Label(m.pc + |LoopCode(X)|, |m.stack|)])
  {
    hide FindEnd;
    LoopParts(code, m.pc, X);
    LoopEnd(code, m.pc, X, base);
    Ir.AtFirst(code, m.pc, [Ir.Block]);
  }

  lemma LoopHead(code: Ir.Code, m: State)
    requires m.Running? && Ir.At(code, m.pc, [Ir.Loop])
    ensures Step(code, m) == m.(pc := m.pc + 1, labels := m.labels + [Label(m.pc, |m.stack|)])
  {
    Ir.AtFirst(code, m.pc, [Ir.Loop]);
  }

  /** Br(0) at the end of an iteration goes back to the Loop instruction. */
  lemma LoopBack(code: Ir.Code, m: State, outer: seq<Label>, head: Label)
    requires m.Running? && Ir.At(code, m.pc, [Ir.Br(0)]) && m.labels == outer + [head] && head.height == |m.stack|
    ensures Step(code, m) == m.(pc := head.continuation, labels := outer)
  {
    Ir.AtFirst(code, m.pc, [Ir.Br(0)]);
    assert m.labels[..|outer|] == outer && m.stack[..|m.stack|] == m.stack;
  }

  /** BrIf(1) inside a loop leaves it through its block if the condition holds. */
  lemma LoopBreak(code: Ir.Code, m: State, below: seq<I32>, c: I32, outer: seq<Label>, block: Label, head: Label)
    requires m.Running? && Ir.At(code, m.pc, [Ir.BrIf(1)]) && m.stack == below + [c]
    requires m.labels == outer + [block] + [head] && block.height == |below|
    ensures Step(code, m) == if c == 0 then m.(pc := m.pc + 1, stack := below)
                             else m.(pc := block.continuation, stack := below, labels := outer)
  {
    Ir.AtFirst(code, m.pc, [Ir.BrIf(1)]);
    assert m.stack[..|m.stack| - 1] == below && below[..|below|] == below;
    assert m.labels[..|outer|] == outer && m.labels[|outer|] == block;
  }

  lemma IfParts(code: Ir.Code, pc: nat, T: Ir.Code, R: Ir.Code)
    requires Ir.At(code, pc, IfCode(T, R)) && (R != [] ==> R[0] == Ir.Else)
    ensures Ir.At(code, pc, [Ir.If]) && Ir.At(code, pc + 1, T) && Ir.At(code, pc + 1 + |T| + |R|, [Ir.End])
    ensures R != [] ==> Ir.At(code, pc + 1 + |T|, [Ir.Else]) && Ir.At(code, pc + 1 + |T| + 1, R[1..])
  {
    Ir.AtAppend(code, pc, [Ir.If] + T + R, [Ir.End]);
    Ir.AtAppend(code, pc, [Ir.If] + T, R);
    Ir.AtAppend(code, pc, [Ir.If], T);
    if R != [] {
      assert R == [Ir.Else] + R[1..];
      Ir.AtAppend(code, pc + 1 + |T|, [Ir.Else], R[1..]);
    }
  }

  lemma IfEnds(code: Ir.Code, pc: nat, T: Ir.Code, R: Ir.Code, base: nat)
    requires Ir.At(code, pc, IfCode(T, R)) && WellNested(T, base) && ElsePart(R, base)
    ensures FindEnd(code, pc + 1, 0) + 1 == pc + |IfCode(T, R)|
    ensures FindElse(code, pc + 1, 0) == pc + 1 + |T|
  {
    hide FindEnd, FindElse, Ir.At, WellNested;
    var p := pc + 1 + |T|;
    IfParts(code, pc, T, R);
    SkipWellNested(code, pc + 1, T, base);
    FindUnfold(code, p + |R|, Ir.End, 0);
    if R != [] {
      FindUnfold(code, p, Ir.Else, 0);
      SkipWellNested(code, p + 1, R[1..], base);
    }
  }

  /** The If instruction: into the branch with a label continuing behind the construct, or over it. */
  lemma EnterIf(code: Ir.Code, m: State, below: seq<I32>, c: I32, T: Ir.Code, R: Ir.Code, base: nat)
    requires m.Running? && Ir.At(code, m.pc, IfCode(T, R)) && WellNested(T, base) && ElsePart(R, base)
    requires m.stack == below + [c]
    ensures var inside := m.labels + [Label(m.pc + |IfCode(T, R)|, |below|)];
            Step(code, m) ==
              if c != 0 then m.(pc := m.pc + 1, stack := below, labels := inside)
              else if R == [] then m.(pc := m.pc + |IfCode(T, R)|, stack := below)
              else m.(pc := m.pc + 1 + |T| + 1, stack := below, labels := inside)
  {
    hide FindEnd, FindElse, WellNested;
    IfParts(code, m.pc, T, R);
    IfEnds(code, m.pc, T, R, base);
    Ir.AtFirst(code, m.pc, [Ir.If]);
    if R == [] { Ir.AtFirst(code, m.pc + 1 + |T|, [Ir.End]); } else { Ir.AtFirst(code, m.pc + 1 + |T|, [Ir.Else]); }
    assert m.stack[..|m.stack| - 1] == below;
  }

  /** Falling into the Else or End of a construct leaves it. */
  lemma LeaveIf(code: Ir.Code, m: State, outer: seq<Label>, target: Label)
    requires m.Running? && m.labels == outer + [target]
    requires (Ir.At(code, m.pc, [Ir.End]) && target.continuation == m.pc + 1) || Ir.At(code, m.pc, [Ir.Else])
    ensures Step(code, m) == m.(pc := target.continuation, labels := outer)
  {
    Ir.AtFirst(code, m.pc, [code[m.pc]]);
    assert m.labels[..|outer|] == outer;
  }

  // ---- CASE tests ----------------------------------------------------------------

  lemma {:induction false} TestsRun(values: seq<int>, sel: nat, code: Ir.Code, m: State)
    requires m.Running? && values != [] && sel < |m.locals| && Ir.At(code, m.pc, LowerTests(values, sel))
    requires forall v <- values :: I32_MIN <= v < 0x8000_0000
    ensures Computes(code, m, LowerTests(values, sel), Val(Truth(m.locals[sel] in values)))
  {
    hide Step, StepN;
    var n := |values| - 1;
    var before, v := values[..n], values[n];
    var test := [Ir.LocalGet(sel), Ir.I32Const(CastI32(v)), Ir.I32Eq];
    var first := LowerTests(before, sel);
    var join := if n > 0 then [Ir.I32Or] else [];
    Ir.AtAppend(code, m.pc, first + test, join);
    Ir.AtAppend(code, m.pc, first, test);
    assert values == before + [v] && v in values && forall x <- before :: x in values;
    if n == 0 {
      assert before == [] && first == [];
      OneTest(v, sel, code, m);
    } else {
      TestsRun(before, sel, code, m);
      var m1 := Pushed(m, first, Truth(m.locals[sel] in before));
      OneTest(v, sel, code, m1);
      BinaryCode(code, m, first, test, Or, Bool, Val(Truth(m.locals[sel] in before)), Val(Truth(m.locals[sel] == v)));
    }
  }

  lemma OneTest(v: int, sel: nat, code: Ir.Code, m: State)
    requires m.Running? && sel < |m.locals| && I32_MIN <= v < 0x8000_0000
    requires Ir.At(code, m.pc, [Ir.LocalGet(sel), Ir.I32Const(CastI32(v)), Ir.I32Eq])
    ensures Computes(code, m, [Ir.LocalGet(sel), Ir.I32Const(CastI32(v)), Ir.I32Eq], Val(Truth(m.locals[sel] == v)))
  {
    hide StepN;
    var get, const_, eq := [Ir.LocalGet(sel)], [Ir.I32Const(CastI32(v))], [BinaryInstr(Eq, Dint)];
    assert [Ir.LocalGet(sel), Ir.I32Const(CastI32(v)), Ir.I32Eq] == get + const_ + eq;
    Ir.AtAppend(code, m.pc, get + const_, eq);
    Ir.AtAppend(code, m.pc, get, const_);
    Ir.AtFirst(code, m.pc, get);
    One(code, m);
    Consts(code, Pushed(m, get, m.locals[sel]), CastI32(v));
    BinaryCode(code, m, get, const_, Eq, Dint, Val(m.locals[sel]), Val(v));
  }

  lemma {:induction false} NoValuesFallThrough(bs: seq<CaseBranch>, v: I32, st: Store, fuel: nat, depth: nat)
    requires NoValues(bs)
    ensures RunBranches(bs, NoElse, v, st, fuel, depth) == Normal(st)
  {
    if bs != [] {
      assert bs[0].values == [];
      NoValuesFallThrough(bs[1..], v, st, fuel, depth);
    }
  }

  // ---- Stores ----------------------------------------------------------------------

  function StoreAt(ty: DataType, offset: nat): Ir.Instruction
  {
    match ty
    case Bool | Sint => Ir.I32Store8(offset)
    case Int => Ir.I32Store16(offset)
    case _ => Ir.I32Store(offset)
  }

  lemma StoreInstrStep(code: Ir.Code, m: State, ty: DataType, below: seq<I32>, base: I32, offset: nat, v: I32)
    requires m.Running? && ty.IsWord() && Ir.At(code, m.pc, [StoreAt(ty, offset)]) && m.stack == below + [base] + [v]
    requires base >= 0 && base + offset + ty.SizeBytes() <= |m.mem|
    ensures Step(code, m) == m.(pc := m.pc + 1, stack := below, mem := Words.Store(m.mem, base + offset, ty.SizeBytes(), v))
  {
    hide Words.Store;
    Ir.AtFirst(code, m.pc, [StoreAt(ty, offset)]);
    assert m.stack[..|m.stack| - 2] == below;
  }

  lemma StoreStep(vars: Symbols, st: Store, code: Ir.Code, m: State, c: Cell, below: seq<I32>, base: I32, offset: nat, v: I32)
    requires m.Running? && Represents(vars, st, m.mem) && IsCell(vars, c) && CellType(vars, c).IsWord()
    requires base >= 0 && base + offset == Address(vars, c) && m.stack == below + [base] + [v]
    requires Ir.At(code, m.pc, [StoreAt(CellType(vars, c), offset)])
    requires CellType(vars, c).Admits(Narrow(v, Width(vars, c)))
    ensures var t := Step(code, m);
            && t.Running? && t == m.(pc := m.pc + 1, stack := below, mem := t.mem)
            && MemoryIs(vars, st[c := Narrow(v, Width(vars, c))], t.mem, ProcessImage(m.mem))
  {
    assert |m.mem| == PAGE;
    hide Step, Ir.At, Represents, Address, IsCell, CellType, Words.Store, Narrow;
    StoreCell(vars, st, m.mem, c, v);
    StoreInstrStep(code, m, CellType(vars, c), below, base, offset, v);
  }

  /** Code of an address, code of a value, and the store of the value into the cell at that address. */
  lemma StoreCode(vars: Symbols, st: Store, code: Ir.Code, m: State, A: Ir.Code, V: Ir.Code, c: Cell, base: I32,
                  offset: nat, v: Value)
    requires m.Running? && Represents(vars, st, m.mem) && IsCell(vars, c) && CellType(vars, c).IsWord()
    requires base >= 0 && base + offset == Address(vars, c)
    requires Ir.At(code, m.pc, A + V + [StoreAt(CellType(vars, c), offset)])
    requires Computes(code, m, A, Val(base)) && Computes(code, Pushed(m, A, base), V, v)
    requires v.Val? ==> CellType(vars, c).Admits(Narrow(v.v, Width(vars, c)))
    ensures var t := StepN(code, m, |A| + |V| + 1);
            match v
            case Val(x) => && t.Running? && t == m.(pc := m.pc + |A| + |V| + 1, mem := t.mem)
                           && MemoryIs(vars, st[c := Narrow(x, Width(vars, c))], t.mem, ProcessImage(m.mem))
            case Trap => t == WasmMachine.Trapped(m.mem)
            case Undefined => true
  {
    hide Step, StepN, Represents, Address, Narrow, CellType, Width, IsCell, MemoryIs, ProcessImage, StoreAt, Ir.At;
    Ir.AtAppend(code, m.pc, A + V, [StoreAt(CellType(vars, c), offset)]);
    Then(code, m, |A|, |V|);
    Then(code, m, |A| + |V|, 1);
    ThenOne(code, m, |A| + |V|);
    if v.Val? {
      StoreStep(vars, st, code, Pushed(Pushed(m, A, base), V, v.v), c, m.stack, base, offset, v.v);
    }
  }

  /** Whatever an expression of an assignable type yields, narrowing makes it a value of the target. */
  lemma AssignedValueAdmitted(vars: Symbols, t: TypedExpr, v: TypedExpr, st: Store)
    requires WellTyped(vars, t) && WellTyped(vars, v) && CheckAssignmentTypes(t.ty, v.ty).Success?
    requires ExprSupported(t) && ExprSupported(v) && WellFormed(vars, st) && Eval(v, st).Val?
    ensures t.ty.IsWord() && t.ty.Admits(Narrow(Eval(v, st).v, t.ty.SizeBytes()))
  {
    hide Eval;
    SupportedIsWord(vars, t);
    SupportedIsWord(vars, v);
    BoolValues(vars, v, st);
  }

  // ---- Tests that leave a loop -------------------------------------------------------

  /** Code of a condition followed by BrIf(1), inside a loop: leaves the loop exactly if the condition holds. */
  lemma BreakTest(code: Ir.Code, m: State, K: Ir.Code, v: Value, outer: seq<Label>, block: Label, head: Label)
    requires m.Running? && Ir.At(code, m.pc, K + [Ir.BrIf(1)]) && Computes(code, m, K, v)
    requires m.labels == outer + [block] + [head] && block.height == |m.stack|
    ensures var t := StepN(code, m, |K| + 1);
            match v
            case Val(c) => t == if c == 0 then m.(pc := m.pc + |K| + 1)
                                else m.(pc := block.continuation, labels := outer)
            case Trap => t == WasmMachine.Trapped(m.mem)
            case Undefined => true
  {
    hide Step, StepN;
    Ir.AtAppend(code, m.pc, K, [Ir.BrIf(1)]);
    Then(code, m, |K|, 1);
    ThenOne(code, m, |K|);
    if v.Val? {
      LoopBreak(code, Pushed(m, K, v.v), m.stack, v.v, outer, block, head);
    }
  }

  /** The negated condition of a WHILE. */
  lemma NegatedRuns(code: Ir.Code, m: State, C: Ir.Code, v: Value)
    requires m.Running? && Ir.At(code, m.pc, C + [Ir.I32Eqz]) && Computes(code, m, C, v)
    ensures Computes(code, m, C + [Ir.I32Eqz], if v.Val? then Val(Truth(v.v == 0)) else v)
  {
    hide Step, StepN;
    Ir.AtAppend(code, m.pc, C, [Ir.I32Eqz]);
    Then(code, m, |C|, 1);
    ThenOne(code, m, |C|);
    if v.Val? {
      EqzStep(code, Pushed(m, C, v.v), m.stack, v.v);
    }
  }

  lemma EqzStep(code: Ir.Code, m: State, below: seq<I32>, v: I32)
    requires m.Running? && Ir.At(code, m.pc, [Ir.I32Eqz]) && m.stack == below + [v]
    ensures Step(code, m) == m.(pc := m.pc + 1, stack := below + [Truth(v == 0)])
  {
    Ir.AtFirst(code, m.pc, [Ir.I32Eqz]);
    assert m.stack[..|m.stack| - 1] == below;
  }

  /** The FOR variable, its test and its next value, as expressions. */
  function ForVariable(s: Statement): TypedExpr
    requires s.ForStatement?
  {
    Variable(s.variable, s.varOffset, Dint)
  }

  function ForExceeded(s: Statement): TypedExpr
    requires s.ForStatement?
  {
    Binary(ForVariable(s), Gt, s.last, Bool)
  }

  function ForNext(s: Statement): TypedExpr
    requires s.ForStatement?
  {
    Binary(ForVariable(s), Add, if s.step.Some? then s.step.value else Literal(IntegerLiteral(1, 8), Sint), Dint)
  }

  /** Test and step of a FOR are the code of ordinary expressions over its variable. */
  lemma ForCode(s: Statement)
    requires s.ForStatement?
    ensures LowerForTest(s) == LowerUntil(ForExceeded(s))
    ensures LowerForStep(s) == [Ir.I32Const(0)] + LowerExpr(ForNext(s)) + [Ir.I32Store(CastU32(s.varOffset))]
  {
    var v := ForVariable(s);
    assert LowerExpr(v) == [Ir.I32Const(0), Ir.I32Load(CastU32(s.varOffset))];
    assert LowerExpr(ForExceeded(s)) == LowerExpr(v) + LowerExpr(s.last) + [Ir.I32GtS];
    assert LowerForTest(s) == LowerExpr(ForExceeded(s)) + [Ir.BrIf(1)];
    var d := if s.step.Some? then s.step.value else Literal(IntegerLiteral(1, 8), Sint);
    assert LowerExpr(ForNext(s)) == LowerExpr(v) + LowerExpr(d) + [Ir.I32Add];
    assert LowerExpr(Literal(IntegerLiteral(1, 8), Sint)) == [Ir.I32Const(1)];
    assert [Ir.I32Const(0), Ir.I32Const(0), Ir.I32Load(CastU32(s.varOffset))] == [Ir.I32Const(0)] + LowerExpr(v);
  }
}
