/** Lowered expressions compute exactly the source value. */
module ExprCorrect {
  import opened Words
  import opened Wrappers
  import opened TypedTree
  import opened TypeChecker
  import opened Layout
  import opened SourceSemantics
  import Ir
  import opened WasmMachine
  import opened Lowering

  /** The module's linear memory: one page. */
  const PAGE: nat := 0x1_0000

  // ---- Where cells live ---------------------------------------------------

  /** Variables occupy pairwise disjoint intervals of the page, above the process image. */
  ghost predicate Placed(vars: Symbols)
  {
    && (forall x <- vars ::
          var i := vars[x];
          i.ty.WellBounded() && i.size == i.ty.SizeBytes() && FIRST_OFFSET <= i.offset && i.offset + i.size <= PAGE)
    && (forall x, y | x in vars && y in vars && x != y ::
          vars[x].offset + vars[x].size <= vars[y].offset || vars[y].offset + vars[y].size <= vars[x].offset)
  }

  lemma SoundLayoutIsPlaced(s: Scope)
    requires Sound(s) && s.nextOffset <= PAGE
    ensures Placed(s.symbols)
  {
    forall x, y | x in s.symbols && y in s.symbols && x != y
      ensures s.symbols[x].offset + s.symbols[x].size <= s.symbols[y].offset
           || s.symbols[y].offset + s.symbols[y].size <= s.symbols[x].offset
    {
      DistinctVariablesAreDisjoint(s, x, y);
    }
  }

  /** Position of a cell within its variable. */
  function Position(vars: Symbols, c: Cell): nat
    requires IsCell(vars, c)
  {
    var ty := vars[c.name].ty;
    if ty.Array? then c.index - ty.lower else 0
  }

  function Width(vars: Symbols, c: Cell): nat
    requires IsCell(vars, c)
  {
    CellType(vars, c).SizeBytes()
  }

  function Address(vars: Symbols, c: Cell): nat
    requires IsCell(vars, c)
  {
    vars[c.name].offset + Position(vars, c) * Width(vars, c)
  }

  lemma WordCellInside(vars: Symbols, c: Cell)
    requires Placed(vars) && IsCell(vars, c) && CellType(vars, c).IsWord()
    ensures Width(vars, c) in {1, 2, 4}
    ensures vars[c.name].offset <= Address(vars, c)
    ensures Address(vars, c) + Width(vars, c) <= vars[c.name].offset + vars[c.name].size <= PAGE
  {
    var ty := vars[c.name].ty;
    if ty.Array? {
      var count, w, k := ty.upper - ty.lower + 1, ty.element.SizeBytes(), Position(vars, c);
      assert vars[c.name].size == count * w by { ArraySize(ty); }
      ElementInside(k, count, w);
    }
  }

  lemma ArraySize(ty: DataType)
    requires ty.Array? && ty.WellBounded() && ty.lower <= ty.upper
    ensures ty.SizeBytes() == (ty.upper - ty.lower + 1) * ty.element.SizeBytes()
  {}

  lemma ElementInside(k: nat, count: nat, w: nat)
    requires k < count
    ensures k * w + w <= count * w
  {
    assert (count - k - 1) * w >= 0;
    assert count * w == (count - k - 1) * w + k * w + w;
  }

  lemma WordCellsDisjoint(vars: Symbols, c: Cell, d: Cell)
    requires Placed(vars) && IsCell(vars, c) && IsCell(vars, d) && c != d
    requires CellType(vars, c).IsWord() && CellType(vars, d).IsWord()
    ensures Address(vars, c) + Width(vars, c) <= Address(vars, d) || Address(vars, d) + Width(vars, d) <= Address(vars, c)
  {
    WordCellInside(vars, c);
    WordCellInside(vars, d);
    if c.name == d.name {
      ElementsApart(Position(vars, c), Position(vars, d), Width(vars, c));
    }
  }

  lemma ElementsApart(i: nat, j: nat, w: nat)
    requires i != j && w in {1, 2, 4}
    ensures i * w + w <= j * w || j * w + w <= i * w
  {}

  // ---- Memory represents a store -------------------------------------------

  ghost predicate CellStored(vars: Symbols, st: Store, mem: Memory, c: Cell)
    requires c in st && IsCell(vars, c)
  {
    CellType(vars, c).IsWord() ==>
      && Width(vars, c) in {1, 2, 4} && Address(vars, c) + Width(vars, c) <= |mem|
      && LoadS(mem, Address(vars, c), Width(vars, c)) == st[c]
  }

  /** The page holds the value of every word cell of the well-formed store `st` at its address. */
  ghost predicate Represents(vars: Symbols, st: Store, mem: Memory)
  {
    && |mem| == PAGE && Placed(vars) && WellFormed(vars, st)
    && forall c <- st :: CellStored(vars, st, mem, c)
  }

  lemma AdmittedFits(ty: DataType, v: int)
    requires ty.IsWord() && ty.Admits(v)
    ensures I32_MIN <= v < 0x8000_0000 && Wrap32(v) == v && Narrow(v, ty.SizeBytes()) == v
  {}

  /** Storing an admissible value at a cell's address updates exactly that cell. */
  lemma StoreCell(vars: Symbols, st: Store, mem: Memory, c: Cell, v: int)
    requires Represents(vars, st, mem) && IsCell(vars, c) && CellType(vars, c).IsWord()
    requires CellType(vars, c).Admits(Narrow(v, Width(vars, c)))
    ensures Width(vars, c) in {1, 2, 4} && FIRST_OFFSET <= Address(vars, c) && Address(vars, c) + Width(vars, c) <= PAGE
    ensures var mem' := Words.Store(mem, Address(vars, c), Width(vars, c), v);
            && Represents(vars, st[c := Narrow(v, Width(vars, c))], mem')
            && mem'[..FIRST_OFFSET] == mem[..FIRST_OFFSET]
  {
    WordCellInside(vars, c);
    var a, w := Address(vars, c), Width(vars, c);
    var mem', st' := Words.Store(mem, a, w, v), st[c := Narrow(v, w)];
    forall d | d in st'
      ensures IsCell(vars, d) && CellStored(vars, st', mem', d)
    {
      assert c in st;
      if CellType(vars, d).IsWord() {
        WordCellInside(vars, d);
        if d == c {
          LoadAfterStore(mem, a, w, v);
        } else {
          assert CellStored(vars, st, mem, d);
          WordCellsDisjoint(vars, c, d);
          LoadElsewhere(mem, a, w, v, Address(vars, d), Width(vars, d));
        }
      }
    }
  }

  // ---- Types of supported expressions ---------------------------------------

  lemma {:induction false} SupportedIsWord(vars: Symbols, e: TypedExpr)
    requires WellTyped(vars, e) && ExprSupported(e)
    ensures e.ty.IsWord()
  {
    match e
    case Binary(l, _, r, _) => SupportedIsWord(vars, l); SupportedIsWord(vars, r);
    case Unary(_, x, _) => SupportedIsWord(vars, x);
    case _ =>
  }

  /** A BOOL expression yields 0 or 1, because BOOL cells hold 0 or 1. */
  lemma {:induction false} BoolValues(vars: Symbols, e: TypedExpr, st: Store)
    requires WellTyped(vars, e) && ExprSupported(e) && WellFormed(vars, st)
    ensures e.ty == Bool && Eval(e, st).Val? ==> Eval(e, st).v in {0, 1}
  {
    hide Wrap32, Apply;
    if e.ty == Bool && Eval(e, st).Val? {
      match e
      case Variable(name, _, _) =>
        assert IsCell(vars, Cell(name, 0));
        AdmittedFits(Bool, st[Cell(name, 0)]);
      case ArrayAccess(base, index, _, _) =>
        var c := EvalElement(base, Eval(index, st), st).cell;
        assert IsCell(vars, c) && CellType(vars, c) == Bool;
        AdmittedFits(Bool, st[c]);
      case Binary(l, op, r, _) =>
        BoolOperator(l.ty, op, r.ty, Eval(l, st).v, Eval(r, st).v);
      case _ =>
    }
  }

  /** Operators typed BOOL yield 0 or 1. */
  lemma BoolOperator(l: DataType, op: BinaryOp, r: DataType, a: I32, b: I32)
    requires BinaryResultType(l, op, r) == Success(Bool)
    ensures Apply(op, a, b).Val? && Apply(op, a, b).v in {0, 1}
  {
    hide Wrap32, TruncDiv, TruncRem;
  }

  // ---- Running straight-line code -------------------------------------------

  lemma One(code: Ir.Code, s: State)
    ensures StepN(code, s, 1) == Step(code, s)
  {
    assert StepN(code, Step(code, s), 0) == Step(code, s);
  }

  /** Running `a` steps and then `b` steps. */
  lemma Then(code: Ir.Code, s: State, a: nat, b: nat)
    ensures StepN(code, s, a + b) == StepN(code, StepN(code, s, a), b)
    ensures !StepN(code, s, a).Running? ==> StepN(code, s, a + b) == StepN(code, s, a)
  {
    StepNAdd(code, s, a, b);
    if !StepN(code, s, a).Running? {
      StepNHalted(code, StepN(code, s, a), b);
    }
  }

  lemma ThenOne(code: Ir.Code, s: State, a: nat)
    ensures StepN(code, s, a + 1) == Step(code, StepN(code, s, a))
  {
    Then(code, s, a, 1);
    One(code, StepN(code, s, a));
  }

  /** The state after `c` ran from `s` and pushed `v`. */
  function Pushed(s: State, c: Ir.Code, v: I32): State
    requires s.Running?
  {
    s.(pc := s.pc + |c|, stack := s.stack + [v])
  }

  ghost predicate Computes(code: Ir.Code, s: State, c: Ir.Code, v: Value)
    requires s.Running?
  {
    match v
    case Val(x) => StepN(code, s, |c|) == Pushed(s, c, x)
    case Trap => StepN(code, s, |c|) == WasmMachine.Trapped(s.mem)
    case Undefined => true
  }

  lemma Consts(code: Ir.Code, s: State, v: I32)
    requires s.Running? && Ir.At(code, s.pc, [Ir.I32Const(v)])
    ensures Computes(code, s, [Ir.I32Const(v)], Val(v))
  {
    Ir.AtFirst(code, s.pc, [Ir.I32Const(v)]);
    One(code, s);
  }

  /** The numeric instruction chosen for an operator computes the operator. */
  lemma NumericAgrees(op: BinaryOp, ty: DataType, a: I32, b: I32)
    requires op != Pow && ty.IsWord() && (op in {And, Or, Xor} ==> a in {0, 1} && b in {0, 1})
    ensures Numeric(BinaryInstr(op, ty), a, b) == match Apply(op, a, b) case Val(v) => Yields(v) case _ => Traps
  {
    hide Bitwise32, TruncDiv, TruncRem, Wrap32;
    if op in {And, Or, Xor} {
      BitwiseOnBooleans(BitAnd, a, b);
      BitwiseOnBooleans(BitOr, a, b);
      BitwiseOnBooleans(BitXor, a, b);
    }
  }

  /** The step of a binary instruction on the two topmost operands. */
  lemma BinaryStep(code: Ir.Code, s: State, op: BinaryOp, ty: DataType, below: seq<I32>, a: I32, b: I32)
    requires s.Running? && Ir.At(code, s.pc, [BinaryInstr(op, ty)]) && s.stack == below + [a] + [b]
    requires op != Pow && ty.IsWord() && (op in {And, Or, Xor} ==> a in {0, 1} && b in {0, 1})
    ensures Step(code, s) == match Apply(op, a, b)
              case Val(v) => s.(pc := s.pc + 1, stack := below + [v])
              case _ => WasmMachine.Trapped(s.mem)
  {
    Ir.AtFirst(code, s.pc, [BinaryInstr(op, ty)]);
    NumericAgrees(op, ty, a, b);
    hide Numeric, Apply;
    assert s.stack[..|s.stack| - 2] == below;
  }

  /** The load instruction for a word type of the given width. */
  lemma LoadInstrStep(code: Ir.Code, s: State, ty: DataType, below: seq<I32>, base: I32, offset: nat)
    requires s.Running? && ty.IsWord() && Ir.At(code, s.pc, [LoadInstr(ty, offset)]) && s.stack == below + [base]
    requires base >= 0 && base + offset + ty.SizeBytes() <= |s.mem|
    ensures Step(code, s) == s.(pc := s.pc + 1, stack := below + [LoadS(s.mem, base + offset, ty.SizeBytes())])
  {
    hide LoadS;
    Ir.AtFirst(code, s.pc, [LoadInstr(ty, offset)]);
    assert s.stack[..|s.stack| - 1] == below;
  }

  lemma LoadStep(vars: Symbols, st: Store, code: Ir.Code, s: State, c: Cell, below: seq<I32>, base: I32, offset: nat)
    requires s.Running? && Represents(vars, st, s.mem) && c in st && CellType(vars, c).IsWord()
    requires Ir.At(code, s.pc, [LoadInstr(CellType(vars, c), offset)]) && s.stack == below + [base]
    requires base >= 0 && base + offset == Address(vars, c)
    ensures Step(code, s) == s.(pc := s.pc + 1, stack := below + [Wrap32(st[c])])
  {
    hide Step, Ir.At, LoadS, Address, Wrap32;
    assert CellStored(vars, st, s.mem, c);
    AdmittedFits(CellType(vars, c), st[c]);
    LoadInstrStep(code, s, CellType(vars, c), below, base, offset);
  }

  /** Code of two operands followed by a binary instruction. */
  lemma BinaryCode(code: Ir.Code, s: State, L: Ir.Code, R: Ir.Code, op: BinaryOp, ty: DataType, a: Value, b: Value)
    requires s.Running? && Ir.At(code, s.pc, L + R + [BinaryInstr(op, ty)])
    requires Computes(code, s, L, a)
    requires a.Val? ==> Computes(code, Pushed(s, L, a.v), R, b)
    requires op != Pow && ty.IsWord()
    requires a.Val? && b.Val? && op in {And, Or, Xor} ==> a.v in {0, 1} && b.v in {0, 1}
    ensures Computes(code, s, L + R + [BinaryInstr(op, ty)], Combine(op, a, b))
  {
    hide Step, StepN, Apply;
    var last := [BinaryInstr(op, ty)];
    Ir.AtAppend(code, s.pc, L + R, last);
    Then(code, s, |L|, |R|);
    Then(code, s, |L| + |R|, 1);
    ThenOne(code, s, |L| + |R|);
    if a.Val? && b.Val? {
      BinaryStep(code, Pushed(Pushed(s, L, a.v), R, b.v), op, ty, s.stack, a.v, b.v);
    }
  }

  /** Code of an address followed by a load. */
  lemma LoadCode(vars: Symbols, st: Store, code: Ir.Code, s: State, A: Ir.Code, c: Cell, base: I32, offset: nat)
    requires s.Running? && Represents(vars, st, s.mem) && c in st && CellType(vars, c).IsWord()
    requires Ir.At(code, s.pc, A + [LoadInstr(CellType(vars, c), offset)])
    requires base >= 0 && base + offset == Address(vars, c)
    requires Computes(code, s, A, Val(base))
    ensures Computes(code, s, A + [LoadInstr(CellType(vars, c), offset)], Val(Wrap32(st[c])))
  {
    hide Step, StepN;
    Ir.AtAppend(code, s.pc, A, [LoadInstr(CellType(vars, c), offset)]);
    LoadStep(vars, st, code, Pushed(s, A, base), c, s.stack, base, offset);
    ThenOne(code, s, |A|);
  }

  /** Running the code of an expression pushes exactly its value, or traps exactly if it does; memory,
      labels, temporaries and the operands below stay as they are. */
  lemma {:induction false} ExprRuns(vars: Symbols, e: TypedExpr, st: Store, code: Ir.Code, s: State)
    requires s.Running? && Represents(vars, st, s.mem) && Ir.At(code, s.pc, LowerExpr(e))
    requires WellTyped(vars, e) && ExprSupported(e)
    ensures Computes(code, s, LowerExpr(e), Eval(e, st))
    decreases e, 2
  {
    hide Step, StepN, Apply, LoadS, Computes, Wrap32, IsCell, Ir.At;
    match e
    case Literal(l, _) => LiteralRuns(vars, l, e.ty, st, code, s);
    case Variable(_, _, _) => VariableRuns(vars, e, st, code, s);
    case ArrayAccess(_, _, _, ty) =>
      Ir.AtAppend(code, s.pc, LowerElement(e), [LoadInstr(ty, 0)]);
      ElementRuns(vars, e, st, code, s);
      ElementLoads(vars, e, st, code, s);
    case Binary(l, op, r, _) =>
      Ir.AtAppend(code, s.pc, LowerExpr(l) + LowerExpr(r), [BinaryInstr(op, l.ty)]);
      Ir.AtAppend(code, s.pc, LowerExpr(l), LowerExpr(r));
      ExprRuns(vars, l, st, code, s);
      if Eval(l, st).Val? {
        ExprRuns(vars, r, st, code, Pushed(s, LowerExpr(l), Eval(l, st).v));
      }
      OperandsAgree(vars, e, st);
      BinaryCode(code, s, LowerExpr(l), LowerExpr(r), op, l.ty, Eval(l, st), Eval(r, st));
    case Unary(_, x, _) =>
      Ir.AtAppend(code, s.pc, LowerExpr(x), [Ir.I32Const(1), Ir.I32Xor]);
      ExprRuns(vars, x, st, code, s);
      NotRuns(vars, e, st, code, s);
  }

  lemma NotRuns(vars: Symbols, e: TypedExpr, st: Store, code: Ir.Code, s: State)
    requires s.Running? && Ir.At(code, s.pc, LowerExpr(e)) && Represents(vars, st, s.mem)
    requires WellTyped(vars, e) && ExprSupported(e) && e.Unary? && Computes(code, s, LowerExpr(e.operand), Eval(e.operand, st))
    ensures Computes(code, s, LowerExpr(e), Eval(e, st))
  {
    var X, v, one, xor := LowerExpr(e.operand), Eval(e.operand, st), [Ir.I32Const(1)], [BinaryInstr(Xor, Bool)];
    assert LowerExpr(e) == X + one + xor && Eval(e, st) == ApplyUnary(Not, v);
    OperandsAgree(vars, e, st);
    hide Step, StepN, Apply, Computes, Represents, Ir.At, WellTyped, ExprSupported, Eval, LowerExpr;
    Ir.AtAppend(code, s.pc, X + one, xor);
    Ir.AtAppend(code, s.pc, X, one);
    if v.Val? {
      Consts(code, Pushed(s, X, v.v), 1);
    }
    BinaryCode(code, s, X, one, Xor, Bool, v, Val(1));
    NotIsXor(v);
  }

  /** Operands are 32-bit, and those of logical operators are 0 or 1. */
  lemma OperandsAgree(vars: Symbols, e: TypedExpr, st: Store)
    requires WellTyped(vars, e) && ExprSupported(e) && WellFormed(vars, st) && (e.Binary? || e.Unary?)
    ensures e.Binary? ==> e.left.ty.IsWord()
    ensures e.Binary? && e.op in {And, Or, Xor} && Eval(e.left, st).Val? ==> Eval(e.left, st).v in {0, 1}
    ensures e.Binary? && e.op in {And, Or, Xor} && Eval(e.right, st).Val? ==> Eval(e.right, st).v in {0, 1}
    ensures e.Unary? && Eval(e.operand, st).Val? ==> Eval(e.operand, st).v in {0, 1}
  {
    hide Eval;
    if e.Binary? {
      SupportedIsWord(vars, e.left);
      BoolValues(vars, e.left, st);
      BoolValues(vars, e.right, st);
    } else {
      BoolValues(vars, e.operand, st);
    }
  }

  lemma LiteralRuns(vars: Symbols, l: TypedLiteral, ty: DataType, st: Store, code: Ir.Code, s: State)
    requires s.Running? && Ir.At(code, s.pc, LowerExpr(Literal(l, ty)))
    requires WellTyped(vars, Literal(l, ty)) && ExprSupported(Literal(l, ty))
    ensures Computes(code, s, LowerExpr(Literal(l, ty)), Eval(Literal(l, ty), st))
  {
    Consts(code, s, LiteralInstr(l).value);
  }

  lemma VariableRuns(vars: Symbols, e: TypedExpr, st: Store, code: Ir.Code, s: State)
    requires s.Running? && Represents(vars, st, s.mem) && Ir.At(code, s.pc, LowerExpr(e))
    requires WellTyped(vars, e) && ExprSupported(e) && e.Variable?
    ensures Computes(code, s, LowerExpr(e), Eval(e, st))
  {
    hide Step, StepN, Computes;
    var c, base, load := Cell(e.name, 0), [Ir.I32Const(0)], [LoadInstr(e.ty, CastU32(e.offset))];
    assert IsCell(vars, c) && Address(vars, c) == e.offset;
    WordCellInside(vars, c);
    assert LowerExpr(e) == base + load;
    Ir.AtAppend(code, s.pc, base, load);
    Consts(code, s, 0);
    LoadCode(vars, st, code, s, base, c, 0, CastU32(e.offset));
  }

  lemma ElementLoads(vars: Symbols, e: TypedExpr, st: Store, code: Ir.Code, s: State)
    requires s.Running? && Represents(vars, st, s.mem)
    requires WellTyped(vars, e) && ExprSupported(e) && e.ArrayAccess? && Ir.At(code, s.pc, LowerExpr(e))
    requires match EvalElement(e.base, Eval(e.index, st), st)
             case At(c) =>
               && IsCell(vars, c) && CellType(vars, c) == e.ty && Address(vars, c) < PAGE
               && Computes(code, s, LowerElement(e), Val(Address(vars, c)))
             case PlaceTrap => Computes(code, s, LowerElement(e), Trap)
             case PlaceUndefined => true
    ensures Computes(code, s, LowerExpr(e), Eval(e, st))
  {
    hide Step, StepN, LoadS, WellTyped;
    var place := EvalElement(e.base, Eval(e.index, st), st);
    if place.At? {
      LoadCode(vars, st, code, s, LowerElement(e), place.cell, Address(vars, place.cell), 0);
    } else if place.PlaceTrap? {
      TrapContinues(code, s, LowerElement(e), [LoadInstr(e.ty, 0)], Trap);
    }
  }

  lemma NotIsXor(a: Value)
    requires a.Val? ==> a.v in {0, 1}
    ensures Combine(Xor, a, Val(1)) == ApplyUnary(Not, a)
  {}

  lemma TrapContinues(code: Ir.Code, s: State, A: Ir.Code, B: Ir.Code, v: Value)
    requires s.Running? && Computes(code, s, A, v) && !v.Val?
    ensures Computes(code, s, A + B, v)
  {
    Then(code, s, |A|, |B|);
  }

  /** The code of an element address pushes the address of the element, if the index is in range. */
  lemma {:induction false} ElementRuns(vars: Symbols, e: TypedExpr, st: Store, code: Ir.Code, s: State)
    requires s.Running? && Represents(vars, st, s.mem)
    requires WellTyped(vars, e) && ExprSupported(e) && e.ArrayAccess? && Ir.At(code, s.pc, LowerElement(e))
    ensures match EvalElement(e.base, Eval(e.index, st), st)
            case At(c) =>
              && IsCell(vars, c) && CellType(vars, c) == e.ty && Address(vars, c) < PAGE
              && Computes(code, s, LowerElement(e), Val(Address(vars, c)))
            case PlaceTrap => Computes(code, s, LowerElement(e), Trap)
            case PlaceUndefined => true
    decreases e, 1
  {
    hide Step, StepN, Apply, LoadS, Computes, Ir.At;
    ElementCode(vars, e, st, code, s);
    var i := Eval(e.index, st);
    if EvalElement(e.base, i, st).At? {
      ElementAddress(vars, e, st, i.v);
    }
  }

  /** What the address code of an element computes: base plus index times size. */
  function ElementValue(e: TypedExpr, i: Value): Value
    requires e.ArrayAccess? && e.base.Variable?
  {
    Combine(Add, Val(CastI32(e.base.offset)), Combine(Mul, i, Val(CastI32(e.elementSize))))
  }

  /** Whatever the array's lower bound is. */
  lemma {:induction false} ElementCode(vars: Symbols, e: TypedExpr, st: Store, code: Ir.Code, s: State)
    requires s.Running? && Represents(vars, st, s.mem)
    requires e.ArrayAccess? && e.base.Variable? && WellTyped(vars, e) && ExprSupported(e.index)
    requires Ir.At(code, s.pc, LowerElement(e))
    ensures Computes(code, s, LowerElement(e), ElementValue(e, Eval(e.index, st)))
    decreases e, 0
  {
    hide Step, StepN, Apply, LoadS, Computes, Ir.At;
    var base, I, size := [Ir.I32Const(CastI32(e.base.offset))], LowerExpr(e.index), [Ir.I32Const(CastI32(e.elementSize))];
    var mul, add := [BinaryInstr(Mul, Dint)], [BinaryInstr(Add, Dint)];
    var product := I + size + mul;
    assert LowerElement(e) == base + product + add;
    Ir.AtAppend(code, s.pc, base + product, add);
    Ir.AtAppend(code, s.pc, base, product);
    Ir.AtAppend(code, s.pc + 1, I + size, mul);
    Ir.AtAppend(code, s.pc + 1, I, size);
    Consts(code, s, CastI32(e.base.offset));
    var s1 := Pushed(s, base, CastI32(e.base.offset));
    var i, w := Eval(e.index, st), CastI32(e.elementSize);
    ExprRuns(vars, e.index, st, code, s1);
    if i.Val? {
      Consts(code, Pushed(s1, I, i.v), w);
    }
    BinaryCode(code, s1, I, size, Mul, Dint, i, Val(w));
    BinaryCode(code, s, base, product, Add, Dint, Val(CastI32(e.base.offset)), Combine(Mul, i, Val(w)));
  }

  /** Base plus index times size, in 32-bit arithmetic, is the address of the element. */
  lemma ElementAddress(vars: Symbols, e: TypedExpr, st: Store, i: I32)
    requires Placed(vars) && WellFormed(vars, st) && WellTyped(vars, e) && ExprSupported(e) && e.ArrayAccess?
    requires Cell(e.base.name, i) in st
    ensures var c := Cell(e.base.name, i);
            && IsCell(vars, c) && CellType(vars, c) == e.ty && Address(vars, c) < PAGE
            && Combine(Add, Val(CastI32(e.base.offset)), Combine(Mul, Val(i), Val(CastI32(e.elementSize))))
            == Val(Address(vars, c))
  {
    var c := Cell(e.base.name, i);
    assert IsCell(vars, c) && CellType(vars, c) == e.ty;
    WordCellInside(vars, c);
    assert Position(vars, c) == i && Width(vars, c) == e.elementSize;
    assert Wrap32(e.elementSize) == e.elementSize;
    assert Wrap32(i * e.elementSize) == i * e.elementSize;
  }

  /** The code of an assignment target pushes the address of the denoted cell. */
  lemma TargetRuns(vars: Symbols, e: TypedExpr, st: Store, code: Ir.Code, s: State)
    requires s.Running? && Represents(vars, st, s.mem) && Ir.At(code, s.pc, LowerAddress(e))
    requires WellTyped(vars, e) && ExprSupported(e) && (e.Variable? || e.ArrayAccess?)
    ensures match EvalPlace(e, st)
            case At(c) =>
              && IsCell(vars, c) && CellType(vars, c) == e.ty && Address(vars, c) < PAGE
              && Computes(code, s, LowerAddress(e), Val(Address(vars, c)))
            case PlaceTrap => Computes(code, s, LowerAddress(e), Trap)
            case PlaceUndefined => true
  {
    if e.ArrayAccess? {
      ElementRuns(vars, e, st, code, s);
    } else {
      var c := Cell(e.name, 0);
      assert IsCell(vars, c) && Address(vars, c) == e.offset;
      WordCellInside(vars, c);
      Consts(code, s, CastI32(e.offset));
    }
  }
}
