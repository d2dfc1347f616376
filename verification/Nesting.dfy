/** Well-nestedness of emitted code: brackets match, each If has at most one Else, and every branch
    names an existing label. */
module Nesting {
  import opened Wrappers
  import opened TypedTree
  import opened Ir
  import opened WasmMachine
  import opened Lowering

  datatype Bracket = BlockBracket | LoopBracket | IfBracket | ElseBracket

  /** Scans `c` with `base` labels around it and the brackets `open` opened so far; None if an End or
      Else has no matching opener in `c`, or a branch names no label. Label number `base + |open|` is the
      function body itself. */
  function Scan(c: Code, base: nat, open: seq<Bracket>): Option<seq<Bracket>>
    decreases |c|
  {
    var n := |open|;
    if c == [] then Some(open)
    else match c[0]
      case Block => Scan(c[1..], base, open + [BlockBracket])
      case Loop => Scan(c[1..], base, open + [LoopBracket])
      case If => Scan(c[1..], base, open + [IfBracket])
      case Else => if n > 0 && open[n - 1] == IfBracket then Scan(c[1..], base, open[..n - 1] + [ElseBracket]) else None
      case End => if n > 0 then Scan(c[1..], base, open[..n - 1]) else None
      case Br(l) => if l <= base + n then Scan(c[1..], base, open) else None
      case BrIf(l) => if l <= base + n then Scan(c[1..], base, open) else None
      case _ => Scan(c[1..], base, open)
  }

  ghost predicate WellNested(c: Code, base: nat)
  {
    Scan(c, base, []) == Some([])
  }

  lemma {:induction false} ScanAppend(a: Code, b: Code, base: nat, open: seq<Bracket>)
    ensures Scan(a + b, base, open)
         == if Scan(a, base, open).Some? then Scan(b, base, Scan(a, base, open).value) else None
    decreases |a|
  {
    if a == [] {
      assert a + b == b;
    } else {
      var n := |open|;
      assert (a + b)[0] == a[0] && (a + b)[1..] == a[1..] + b;
      var open' := match a[0]
        case Block => open + [BlockBracket]
        case Loop => open + [LoopBracket]
        case If => open + [IfBracket]
        case Else => if n > 0 then open[..n - 1] + [ElseBracket] else open
        case End => if n > 0 then open[..n - 1] else open
        case _ => open;
      ScanAppend(a[1..], b, base, open');
    }
  }

  /** Code that is well nested under `base + |outer|` labels leaves the brackets around it alone. */
  lemma {:induction false} ScanInside(c: Code, base: nat, outer: seq<Bracket>, open: seq<Bracket>)
    requires Scan(c, base + |outer|, open).Some?
    ensures Scan(c, base, outer + open) == Some(outer + Scan(c, base + |outer|, open).value)
    decreases |c|
  {
    if c != [] {
      var n := |open|;
      var open' := match c[0]
        case Block => open + [BlockBracket]
        case Loop => open + [LoopBracket]
        case If => open + [IfBracket]
        case Else => open[..n - 1] + [ElseBracket]
        case End => open[..n - 1]
        case _ => open;
      ScanInside(c[1..], base, outer, open');
      assert outer + (open + [BlockBracket]) == outer + open + [BlockBracket];
      assert outer + (open + [LoopBracket]) == outer + open + [LoopBracket];
      assert outer + (open + [IfBracket]) == outer + open + [IfBracket];
      if n > 0 {
        assert (outer + open)[..|outer| + n - 1] == outer + open[..n - 1];
        assert outer + (open[..n - 1] + [ElseBracket]) == outer + open[..n - 1] + [ElseBracket];
      }
    }
  }

  lemma WellNestedInside(c: Code, base: nat, outer: seq<Bracket>)
    requires WellNested(c, base + |outer|)
    ensures Scan(c, base, outer) == Some(outer)
  {
    ScanInside(c, base, outer, []);
    assert outer + [] == outer;
  }

  lemma WellNestedAppend(a: Code, b: Code, base: nat)
    requires WellNested(a, base) && WellNested(b, base)
    ensures WellNested(a + b, base)
  {
    ScanAppend(a, b, base, []);
  }

  /** No brackets, and only branches to the `labels` innermost labels. */
  predicate Straight(c: Code, labels: nat)
  {
    forall i <- c :: Plain(i, labels)
  }

  predicate Plain(i: Instruction, labels: nat)
  {
    match i
    case Block | Loop | If | Else | End => false
    case Br(l) => l <= labels
    case BrIf(l) => l <= labels
    case _ => true
  }

  lemma {:induction false} StraightIsWellNested(c: Code, base: nat)
    requires Straight(c, base)
    ensures WellNested(c, base)
  {
    if c != [] {
      assert c[0] in c && forall i <- c[1..] :: i in c;
      StraightIsWellNested(c[1..], base);
    }
  }

  lemma LoopOpens(base: nat)
    ensures Scan([Block, Loop], base, []) == Some([BlockBracket, LoopBracket])
  {
    assert [Block, Loop][1..] == [Loop] && [Loop][1..] == [];
    assert [] + [BlockBracket] + [LoopBracket] == [BlockBracket, LoopBracket];
  }

  lemma LoopCloses(base: nat)
    ensures Scan([Br(0), End, End], base, [BlockBracket, LoopBracket]) == Some([])
  {
    var close := [Br(0), End, End];
    assert close[1..] == [End, End] && close[1..][1..] == [End] && close[1..][1..][1..] == [];
  }

  lemma LoopIsWellNested(body: Code, base: nat)
    requires WellNested(body, base + 2)
    ensures WellNested(LoopCode(body), base)
  {
    var open := [BlockBracket, LoopBracket];
    WellNestedInside(body, base, open);
    hide Scan;
    LoopOpens(base);
    LoopCloses(base);
    ScanAppend([Block, Loop], body, base, []);
    ScanAppend([Block, Loop] + body, [Br(0), End, End], base, []);
  }

  /** The ELSE part is empty or an Else followed by well-nested code. */
  ghost predicate ElsePart(c: Code, base: nat)
  {
    c == [] || (c[0] == Else && WellNested(c[1..], base))
  }

  lemma IfOpensAndCloses(base: nat)
    ensures Scan([If], base, []) == Some([IfBracket])
    ensures Scan([End], base, [IfBracket]) == Some([]) && Scan([End], base, [ElseBracket]) == Some([])
  {
    assert [] + [IfBracket] == [IfBracket];
  }

  lemma ElseFollows(rest: Code, base: nat)
    requires ElsePart(rest, base + 1)
    ensures Scan(rest, base, [IfBracket]) == Some([if rest == [] then IfBracket else ElseBracket])
  {
    if rest != [] {
      assert [IfBracket][..0] + [ElseBracket] == [ElseBracket];
      WellNestedInside(rest[1..], base, [ElseBracket]);
    }
  }

  lemma IfIsWellNested(body: Code, rest: Code, base: nat)
    requires WellNested(body, base + 1) && ElsePart(rest, base + 1)
    ensures WellNested(IfCode(body, rest), base)
  {
    WellNestedInside(body, base, [IfBracket]);
    ElseFollows(rest, base);
    IfOpensAndCloses(base);
    hide Scan, ElsePart;
    ScanAppend([If], body, base, []);
    ScanAppend([If] + body, rest, base, []);
    ScanAppend([If] + body + rest, [End], base, []);
  }

  // ---- Lowered code is well nested ---------------------------------------

  lemma {:induction false} ExprIsStraight(e: TypedExpr)
    ensures Straight(LowerExpr(e), 0) && Straight(LowerAddress(e), 0)
    decreases e
  {
    match e
    case ArrayAccess(base, index, _, _) => ExprIsStraight(base); ExprIsStraight(index);
    case Binary(l, _, r, _) => ExprIsStraight(l); ExprIsStraight(r);
    case Unary(_, x, _) => ExprIsStraight(x);
    case _ =>
  }

  lemma {:induction false} TestsAreStraight(values: seq<int>, sel: nat)
    ensures Straight(LowerTests(values, sel), 0)
  {
    if values != [] {
      TestsAreStraight(values[..|values| - 1], sel);
    }
  }

  lemma ExprIsWellNested(e: TypedExpr, base: nat)
    ensures WellNested(LowerExpr(e), base) && WellNested(LowerAddress(e), base)
  {
    ExprIsStraight(e);
    assert forall i <- LowerExpr(e) + LowerAddress(e) :: Plain(i, 0) && Plain(i, base);
    StraightIsWellNested(LowerExpr(e), base);
    StraightIsWellNested(LowerAddress(e), base);
  }

  lemma PartsAreWellNested(c: TypedExpr, base: nat)
    ensures WellNested(LowerWhileTest(c), base + 2) && WellNested(LowerUntil(c), base + 2)
  {
    ExprIsWellNested(c, base + 2);
    StraightIsWellNested([I32Eqz, BrIf(1)], base + 2);
    StraightIsWellNested([BrIf(1)], base + 2);
    WellNestedAppend(LowerExpr(c), [I32Eqz, BrIf(1)], base + 2);
    WellNestedAppend(LowerExpr(c), [BrIf(1)], base + 2);
  }

  lemma ForPartsAreWellNested(s: Statement, base: nat)
    requires s.ForStatement?
    ensures WellNested(LowerForInit(s), base)
    ensures WellNested(LowerForTest(s), base + 2) && WellNested(LowerForStep(s), base + 2)
  {
    ExprIsStraight(s.first);
    ExprIsStraight(s.last);
    if s.step.Some? { ExprIsStraight(s.step.value); }
    StraightIsWellNested(LowerForInit(s), base);
    StraightIsWellNested(LowerForTest(s), base + 2);
    StraightIsWellNested(LowerForStep(s), base + 2);
  }

  /** Every statement, EXIT and CONTINUE included, becomes well-nested code, provided each of the
      `depth` loops around it contributes its two labels. */
  lemma {:induction false} LoweredIsWellNested(s: Statement, depth: nat, temp: nat, base: nat)
    requires base >= 2 * depth
    ensures WellNested(Lower(s, depth, temp), base)
    decreases Size(s), 1
  {
    hide WellNested, Scan, LowerExpr, LowerAddress, LowerAll, LowerRest, LowerBranches, ElsePart, IfCode, LoopCode;
    hide LowerWhileTest, LowerUntil, LowerForInit, LowerForTest, LowerForStep;
    match s
    case Assignment(t, v) =>
      ExprIsWellNested(t, base);
      ExprIsWellNested(v, base);
      StraightIsWellNested([StoreInstr(t.ty)], base);
      WellNestedAppend(LowerAddress(t), LowerExpr(v), base);
      WellNestedAppend(LowerAddress(t) + LowerExpr(v), [StoreInstr(t.ty)], base);
    case IfStatement(c, t, _, _) =>
      ExprIsWellNested(c, base);
      AllAreWellNested(t, depth, temp, base + 1);
      RestIsElsePart(s, depth, temp + TempsAll(t), base + 1);
      IfIsWellNested(LowerAll(t, depth, temp), LowerRest(s, depth, temp + TempsAll(t)), base);
      WellNestedAppend(LowerExpr(c), IfCode(LowerAll(t, depth, temp), LowerRest(s, depth, temp + TempsAll(t))), base);
    case WhileStatement(c, body) =>
      PartsAreWellNested(c, base);
      AllAreWellNested(body, depth + 1, temp, base + 2);
      WellNestedAppend(LowerWhileTest(c), LowerAll(body, depth + 1, temp), base + 2);
      LoopIsWellNested(LowerWhileTest(c) + LowerAll(body, depth + 1, temp), base);
    case RepeatStatement(body, until) =>
      PartsAreWellNested(until, base);
      AllAreWellNested(body, depth + 1, temp, base + 2);
      WellNestedAppend(LowerAll(body, depth + 1, temp), LowerUntil(until), base + 2);
      LoopIsWellNested(LowerAll(body, depth + 1, temp) + LowerUntil(until), base);
    case ForStatement(_, _, _, _, _, body) =>
      var code := LowerAll(body, depth + 1, temp);
      ForPartsAreWellNested(s, base);
      AllAreWellNested(body, depth + 1, temp, base + 2);
      WellNestedAppend(LowerForTest(s), code, base + 2);
      WellNestedAppend(LowerForTest(s) + code, LowerForStep(s), base + 2);
      LoopIsWellNested(LowerForTest(s) + code + LowerForStep(s), base);
      WellNestedAppend(LowerForInit(s), LoopCode(LowerForTest(s) + code + LowerForStep(s)), base);
    case CaseStatement(selector, bs, e) =>
      ExprIsWellNested(selector, base);
      StraightIsWellNested([LocalSet(temp)], base);
      WellNestedAppend(LowerExpr(selector), [LocalSet(temp)], base);
      BranchesAreWellNested(bs, e, temp, depth, temp + 1, base);
      WellNestedAppend(LowerExpr(selector) + [LocalSet(temp)], LowerBranches(bs, e, temp, depth, temp + 1), base);
    case ReturnStatement(r) =>
      StraightIsWellNested([Return], base);
      if r.Some? {
        ExprIsWellNested(r.value, base);
        WellNestedAppend(LowerExpr(r.value), [Return], base);
      } else {
        assert [] + [Return] == [Return];
      }
    case _ =>
      StraightIsWellNested(Lower(s, depth, temp), base);
  }

  lemma {:induction false} AllAreWellNested(ss: seq<Statement>, depth: nat, temp: nat, base: nat)
    requires base >= 2 * depth
    ensures WellNested(LowerAll(ss, depth, temp), base)
    decreases Sizes(ss), 0
  {
    if ss != [] {
      LoweredIsWellNested(ss[0], depth, temp, base);
      AllAreWellNested(ss[1..], depth, temp + Temps(ss[0]), base);
      WellNestedAppend(Lower(ss[0], depth, temp), LowerAll(ss[1..], depth, temp + Temps(ss[0])), base);
    }
  }

  lemma {:induction false} RestIsElsePart(s: Statement, depth: nat, temp: nat, base: nat)
    requires s.IfStatement? && base >= 2 * depth
    ensures ElsePart(LowerRest(s, depth, temp), base)
    decreases Size(s), 0
  {
    if s.elsifs != [] {
      LoweredIsWellNested(NextElsif(s), depth, temp, base);
      assert LowerRest(s, depth, temp)[1..] == Lower(NextElsif(s), depth, temp);
    } else if s.otherwise.ElseBody? {
      assert Size(s) == 1 + Sizes(s.thenBranch) + ElsifSizes(s.elsifs) + ElseSize(s.otherwise);
      AllAreWellNested(s.otherwise.body, depth, temp, base);
      assert LowerRest(s, depth, temp)[1..] == LowerAll(s.otherwise.body, depth, temp);
    }
  }

  lemma {:induction false} BranchesAreWellNested(bs: seq<CaseBranch>, e: ElseBranch, sel: nat, depth: nat, temp: nat,
                                                 base: nat)
    requires base >= 2 * depth
    ensures WellNested(LowerBranches(bs, e, sel, depth, temp), base)
    decreases CaseSizes(bs) + ElseSize(e), 0
  {
    if bs == [] {
      if e.ElseBody? { AllAreWellNested(e.body, depth, temp, base); }
    } else if bs[0].values == [] {
      BranchesAreWellNested(bs[1..], e, sel, depth, temp, base);
    } else {
      var tests, body := LowerTests(bs[0].values, sel), LowerAll(bs[0].body, depth, temp);
      var later := LowerBranches(bs[1..], e, sel, depth, temp + TempsAll(bs[0].body));
      var rest := if NoValues(bs[1..]) && e.NoElse? then [] else [Else] + later;
      TestsAreStraight(bs[0].values, sel);
      StraightIsWellNested(tests, base);
      AllAreWellNested(bs[0].body, depth, temp, base + 1);
      BranchesAreWellNested(bs[1..], e, sel, depth, temp + TempsAll(bs[0].body), base + 1);
      assert rest != [] ==> rest[1..] == later;
      IfIsWellNested(body, rest, base);
      WellNestedAppend(tests, IfCode(body, rest), base);
    }
  }

  /** Every prefix of well-nested code is itself free of stray Else, End and branch targets. */
  lemma WellNestedPrefix(c: Code, base: nat, k: nat)
    requires WellNested(c, base) && k <= |c|
    ensures Scan(c[..k], base, []).Some?
  {
    assert c[..k] + c[k..] == c;
    ScanAppend(c[..k], c[k..], base, []);
  }

  // ---- Finding the matching Else and End over well-nested code ------------

  lemma {:induction false} SkipEnd(code: Code, pc: nat, c: Code, base: nat, open: seq<Bracket>, d: nat)
    requires At(code, pc, c) && Scan(c, base, open).Some?
    ensures FindEnd(code, pc, |open| + d) == FindEnd(code, pc + |c|, |Scan(c, base, open).value| + d)
    ensures FindElse(code, pc, |open| + d) == FindElse(code, pc + |c|, |Scan(c, base, open).value| + d)
    decreases |c|
  {
    if c != [] {
      AtFirst(code, pc, c);
      assert [c[0]] + c[1..] == c;
      AtAppend(code, pc, [c[0]], c[1..]);
      var n := |open|;
      var open' := match c[0]
        case Block => open + [BlockBracket]
        case Loop => open + [LoopBracket]
        case If => open + [IfBracket]
        case Else => open[..n - 1] + [ElseBracket]
        case End => open[..n - 1]
        case _ => open;
      SkipEnd(code, pc + 1, c[1..], base, open', d);
    }
  }

  lemma SkipWellNested(code: Code, pc: nat, c: Code, base: nat)
    requires At(code, pc, c) && WellNested(c, base)
    ensures FindEnd(code, pc, 0) == FindEnd(code, pc + |c|, 0)
    ensures FindElse(code, pc, 0) == FindElse(code, pc + |c|, 0)
    ensures FindEnd(code, pc, 1) == FindEnd(code, pc + |c|, 1)
  {
    SkipEnd(code, pc, c, base, [], 0);
    SkipEnd(code, pc, c, base, [], 1);
  }
}
