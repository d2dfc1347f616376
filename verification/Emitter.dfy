/** The lowering as the compiler performs it: instructions are appended one by one to a growing body,
    temporaries to a growing list, and the loop depth is raised around every loop body. */
module Emitter {
  import opened TypedTree
  import opened Ir
  import L = Lowering

  /** A temporary local, named after its index. */
  datatype LocalVar = Temporary(index: nat)

  /** The compiled step function. */
  datatype IrFunction = IrFunction(locals: seq<LocalVar>, body: Code)

  function Ends(n: nat): Code { seq(n, _ => End) }

  lemma OneMoreEnd(n: nat)
    ensures Ends(n + 1) == [End] + Ends(n) == Ends(n) + [End]
  {}

  /** Appending piece by piece appends the concatenation of the pieces. */
  lemma Regroup(p: Code, a: Code, b: Code, c: Code)
    ensures p + a + b == p + (a + b)
    ensures p + a + b + c == p + (a + b + c)
  {}

  lemma StatementsFrom(ss: seq<Statement>, i: nat, depth: nat, temp: nat)
    requires i < |ss|
    ensures L.LowerAll(ss[i..], depth, temp) == L.Lower(ss[i], depth, temp) + L.LowerAll(ss[i + 1..], depth, temp + L.Temps(ss[i]))
    ensures L.TempsAll(ss[i..]) == L.Temps(ss[i]) + L.TempsAll(ss[i + 1..])
    ensures Sizes(ss[i + 1..]) <= Sizes(ss[i..]) && Size(ss[i]) < Sizes(ss[i..])
  {
    assert ss[i..][0] == ss[i] && ss[i..][1..] == ss[i + 1..];
  }

  lemma NoStatements(ss: seq<Statement>, depth: nat, temp: nat)
    ensures L.LowerAll(ss[|ss|..], depth, temp) == [] && L.TempsAll(ss[|ss|..]) == 0
  {}

  // ---- The flat chains the compiler emits --------------------------------------

  /** The IF that remains after `i` of its conditions failed. */
  function Remaining(s: Statement, i: nat): (r: Statement)
    requires s.IfStatement? && i <= |s.elsifs|
    ensures r.IfStatement? && r.elsifs == s.elsifs[i..] && r.otherwise == s.otherwise
  {
    IfStatement(if i == 0 then s.condition else s.elsifs[i - 1].condition,
                if i == 0 then s.thenBranch else s.elsifs[i - 1].body, s.elsifs[i..], s.otherwise)
  }

  lemma RemainingNext(s: Statement, i: nat)
    requires s.IfStatement? && i < |s.elsifs|
    ensures NextElsif(Remaining(s, i)) == Remaining(s, i + 1)
    ensures Size(Remaining(s, i + 1)) < Size(Remaining(s, i))
  {
    assert s.elsifs[i..][1..] == s.elsifs[i + 1..];
  }

  /** One more ELSIF: its condition and branch are emitted, and one more End is due. */
  lemma ElsifEmitted(p: Code, s: Statement, i: nat, depth: nat, temp: nat)
    requires s.IfStatement? && i < |s.elsifs|
    ensures var c, body := L.LowerExpr(s.elsifs[i].condition), L.LowerAll(s.elsifs[i].body, depth, temp);
            p + [Else] + c + [If] + body
            + L.LowerRest(Remaining(s, i + 1), depth, temp + L.TempsAll(s.elsifs[i].body)) + Ends(i + 2)
            == p + L.LowerRest(Remaining(s, i), depth, temp) + Ends(i + 1)
  {
    RemainingNext(s, i);
    OneMoreEnd(i + 1);
    var next := Remaining(s, i + 1);
    IfParts(next, depth, temp);
    hide *;
    var c, body := L.LowerExpr(next.condition), L.LowerAll(next.thenBranch, depth, temp);
    var rest := L.LowerRest(next, depth, temp + L.TempsAll(next.thenBranch));
    Unfold(p + [Else], c, body, rest, Ends(i + 1));
    assert p + ([Else] + (c + ([If] + body + rest + [End]))) == p + [Else] + (c + ([If] + body + rest + [End]));
  }

  lemma IfParts(s: Statement, depth: nat, temp: nat)
    requires s.IfStatement?
    ensures L.Lower(s, depth, temp) == L.LowerExpr(s.condition)
              + ([If] + L.LowerAll(s.thenBranch, depth, temp) + L.LowerRest(s, depth, temp + L.TempsAll(s.thenBranch)) + [End])
    ensures L.Temps(s) == L.TempsAll(s.thenBranch) + if s.elsifs == [] then L.TempsElse(s.otherwise) else L.Temps(NextElsif(s))
  {}

  lemma Unfold(p: Code, c: Code, body: Code, rest: Code, ends: Code)
    ensures p + c + [If] + body + rest + ([End] + ends) == p + (c + ([If] + body + rest + [End])) + ends
  {
    assert p + (c + ([If] + body + rest + [End])) == p + c + [If] + body + rest + [End];
  }

  /** Temporaries still to be allocated after `i` ELSIF branches. */
  ghost function RestTemps(s: Statement, i: nat): nat
    requires s.IfStatement? && i <= |s.elsifs|
  {
    if i == |s.elsifs| then L.TempsElse(s.otherwise) else L.Temps(Remaining(s, i + 1))
  }

  lemma ElsifTemps(s: Statement, i: nat)
    requires s.IfStatement? && i < |s.elsifs|
    ensures RestTemps(s, i) == L.TempsAll(s.elsifs[i].body) + RestTemps(s, i + 1)
    ensures Sizes(s.elsifs[i].body) < Size(Remaining(s, i))
  {
    RemainingNext(s, i);
    var next := Remaining(s, i + 1);
    if i + 1 < |s.elsifs| {
      RemainingNext(s, i + 1);
    }
    assert L.Temps(next) == L.TempsAll(next.thenBranch)
                            + if next.elsifs == [] then L.TempsElse(next.otherwise) else L.Temps(NextElsif(next));
  }

  lemma IfStarts(s: Statement, depth: nat, temp: nat)
    requires s.IfStatement?
    ensures L.Lower(s, depth, temp) == L.LowerExpr(s.condition) + [If] + L.LowerAll(s.thenBranch, depth, temp)
                                       + L.LowerRest(Remaining(s, 0), depth, temp + L.TempsAll(s.thenBranch)) + Ends(1)
    ensures L.Temps(s) == L.TempsAll(s.thenBranch) + RestTemps(s, 0)
    ensures Sizes(s.thenBranch) < Size(s) && (s.otherwise.ElseBody? ==> Sizes(s.otherwise.body) < Size(s)) && Remaining(s, 0) == s
  {
    assert Remaining(s, 0) == s && Ends(1) == [End];
    if s.elsifs != [] {
      RemainingNext(s, 0);
    }
  }

  lemma IfEnds(s: Statement, depth: nat, temp: nat)
    requires s.IfStatement?
    ensures var e := s.otherwise;
            && L.LowerRest(Remaining(s, |s.elsifs|), depth, temp) == (if e.NoElse? then [] else [Else] + L.LowerAll(e.body, depth, temp))
            && RestTemps(s, |s.elsifs|) == if e.NoElse? then 0 else L.TempsAll(e.body)
  {}

  /** The branches that list values. */
  function Listed(bs: seq<CaseBranch>): (r: seq<CaseBranch>)
    ensures forall b <- r :: b.values != []
    ensures r == [] <==> L.NoValues(bs)
    ensures CaseSizes(r) <= CaseSizes(bs)
  {
    if bs == [] then []
    else if bs[0].values == [] then Listed(bs[1..])
    else [bs[0]] + Listed(bs[1..])
  }

  /** Code of a chain whose first branch lists values. */
  function Chain(b: CaseBranch, last: bool, rest: Code, sel: nat, depth: nat, temp: nat): Code
  {
    L.LowerTests(b.values, sel) + L.IfCode(L.LowerAll(b.body, depth, temp), if last then [] else [Else] + rest)
  }

  lemma ChainOf(bs: seq<CaseBranch>, e: ElseBranch, sel: nat, depth: nat, temp: nat)
    requires bs != [] && bs[0].values != []
    ensures var used := L.TempsAll(bs[0].body);
            && L.LowerBranches(bs, e, sel, depth, temp)
               == Chain(bs[0], L.NoValues(bs[1..]) && e.NoElse?, L.LowerBranches(bs[1..], e, sel, depth, temp + used), sel, depth, temp)
            && L.TempsBranches(bs) == used + L.TempsBranches(bs[1..])
  {
    hide L.LowerAll, L.LowerTests, L.IfCode;
  }

  lemma Unlisted(bs: seq<CaseBranch>, e: ElseBranch, sel: nat, depth: nat, temp: nat)
    requires bs != [] && bs[0].values == []
    ensures L.LowerBranches(bs, e, sel, depth, temp) == L.LowerBranches(bs[1..], e, sel, depth, temp)
    ensures L.TempsBranches(bs) == L.TempsBranches(bs[1..])
  {}

  /** Filtering the branches first does not change the emitted code. */
  lemma {:induction false} ListedLowersAlike(bs: seq<CaseBranch>, e: ElseBranch, sel: nat, depth: nat, temp: nat)
    ensures L.LowerBranches(Listed(bs), e, sel, depth, temp) == L.LowerBranches(bs, e, sel, depth, temp)
    ensures L.TempsBranches(Listed(bs)) == L.TempsBranches(bs)
    decreases |bs|
  {
    hide L.LowerBranches, L.TempsBranches, L.NoValues, L.TempsAll, Chain;
    if bs != [] {
      if bs[0].values == [] {
        Unlisted(bs, e, sel, depth, temp);
        ListedLowersAlike(bs[1..], e, sel, depth, temp);
      } else {
        assert Listed(bs)[1..] == Listed(bs[1..]);
        ChainOf(bs, e, sel, depth, temp);
        ChainOf(Listed(bs), e, sel, depth, temp);
        NoValuesListed(bs[1..]);
        ListedLowersAlike(bs[1..], e, sel, depth, temp + L.TempsAll(bs[0].body));
      }
    }
  }

  lemma NoValuesListed(bs: seq<CaseBranch>)
    ensures L.NoValues(Listed(bs)) == L.NoValues(bs)
  {
    if Listed(bs) != [] {
      assert Listed(bs)[0].values != [];
    }
  }

  /** The Else still to be emitted after the last of `n` branches. */
  function PendingElse(i: nat, n: nat, e: ElseBranch): Code
  {
    if 0 < i == n && e.ElseBody? then [Else] else []
  }

  /** Filtering first, a CASE stores its selector and continues with the chain of its listed branches. */
  lemma CaseStarts(s: Statement, depth: nat, temp: nat)
    requires s.CaseStatement?
    ensures var listed := Listed(s.branches);
            && L.Lower(s, depth, temp) == L.LowerExpr(s.selector) + [LocalSet(temp)]
                                          + L.LowerBranches(listed[0..], s.otherwise, temp, depth, temp + 1) + Ends(0)
            && L.Temps(s) == 1 + L.TempsBranches(listed[0..]) + L.TempsElse(s.otherwise)
    ensures CaseSizes(s.branches) < Size(s) && (s.otherwise.ElseBody? ==> Sizes(s.otherwise.body) < Size(s))
  {
    ListedLowersAlike(s.branches, s.otherwise, temp, depth, temp + 1);
    assert Listed(s.branches)[0..] == Listed(s.branches);
    hide Listed, L.LowerExpr, L.LowerBranches, L.TempsBranches;
  }

  lemma CaseEnds(bs: seq<CaseBranch>, e: ElseBranch, sel: nat, depth: nat, temp: nat)
    ensures L.LowerBranches(bs[|bs|..], e, sel, depth, temp) == if e.NoElse? then [] else L.LowerAll(e.body, depth, temp)
    ensures L.TempsBranches(bs[|bs|..]) == 0
    ensures L.TempsElse(e) == if e.NoElse? then 0 else L.TempsAll(e.body)
    ensures Ends(0) == [] && PendingElse(0, |bs|, e) == [] && PendingElse(|bs|, |bs|, e) == if 0 < |bs| && e.ElseBody? then [Else] else []
  {}

  lemma Spread(p: Code, tests: Code, body: Code, between: Code, pending: Code, tail: Code, rest: Code, i: nat)
    requires between + pending + tail == rest
    ensures p + tests + [If] + body + between + pending + tail + Ends(i + 1) == p + (tests + L.IfCode(body, rest)) + Ends(i)
  {
    OneMoreEnd(i);
    hide Ends;
    assert p + tests + [If] + body + between + pending + tail == p + tests + [If] + body + rest;
    assert p + (tests + L.IfCode(body, rest)) == p + tests + [If] + body + rest + [End];
    assert p + tests + [If] + body + rest + ([End] + Ends(i)) == p + tests + [If] + body + rest + [End] + Ends(i);
  }

  /** What follows a branch, its Else included. */
  function RestOf(i: nat, n: nat, e: ElseBranch, tail: Code): Code
  {
    (if i + 1 < n then [Else] else []) + PendingElse(i + 1, n, e) + tail
  }

  lemma RestCases(i: nat, n: nat, e: ElseBranch, tail: Code)
    requires i < n && (i == n - 1 && e.NoElse? ==> tail == [])
    ensures RestOf(i, n, e, tail) == if i == n - 1 && e.NoElse? then [] else [Else] + tail
  {}

  lemma NoBranchesNoElse(bs: seq<CaseBranch>, e: ElseBranch, sel: nat, depth: nat, temp: nat)
    requires bs == [] && e.NoElse?
    ensures L.LowerBranches(bs, e, sel, depth, temp) == []
  {}

  lemma ChainAt(bs: seq<CaseBranch>, i: nat, e: ElseBranch, sel: nat, depth: nat, temp: nat)
    requires i < |bs| && forall b <- bs :: b.values != []
    ensures var tail := L.LowerBranches(bs[i + 1..], e, sel, depth, temp + L.TempsAll(bs[i].body));
            L.LowerBranches(bs[i..], e, sel, depth, temp)
            == L.LowerTests(bs[i].values, sel) + L.IfCode(L.LowerAll(bs[i].body, depth, temp), RestOf(i, |bs|, e, tail))
  {
    var rest, after := bs[i..], temp + L.TempsAll(bs[i].body);
    assert rest[0] == bs[i] && rest[1..] == bs[i + 1..] && bs[i] in bs;
    assert L.NoValues(bs[i + 1..]) <==> i == |bs| - 1 by {
      if i < |bs| - 1 { assert bs[i + 1..][0] in bs; }
    }
    hide L.LowerAll, L.LowerTests, L.IfCode, L.TempsAll, L.LowerBranches, L.NoValues, RestOf;
    ChainOf(rest, e, sel, depth, temp);
    var tail := L.LowerBranches(bs[i + 1..], e, sel, depth, after);
    if i == |bs| - 1 && e.NoElse? { NoBranchesNoElse(bs[i + 1..], e, sel, depth, after); }
    RestCases(i, |bs|, e, tail);
  }

  /** One more branch: its tests and statements are emitted, and one more End is due. */
  lemma BranchEmitted(p: Code, bs: seq<CaseBranch>, i: nat, e: ElseBranch, sel: nat, depth: nat, temp: nat)
    requires i < |bs| && forall b <- bs :: b.values != []
    ensures var n, b := |bs|, bs[i];
            var tests, body := L.LowerTests(b.values, sel), L.LowerAll(b.body, depth, temp);
            var tail := L.LowerBranches(bs[i + 1..], e, sel, depth, temp + L.TempsAll(b.body));
            p + tests + [If] + body + (if i + 1 < n then [Else] else []) + PendingElse(i + 1, n, e) + tail + Ends(i + 1)
            == p + L.LowerBranches(bs[i..], e, sel, depth, temp) + Ends(i)
  {
    hide L.LowerBranches, L.LowerTests, L.LowerAll, L.TempsAll, L.IfCode, Ends, PendingElse;
    var n, b := |bs|, bs[i];
    ChainAt(bs, i, e, sel, depth, temp);
    var tests, body := L.LowerTests(b.values, sel), L.LowerAll(b.body, depth, temp);
    var tail := L.LowerBranches(bs[i + 1..], e, sel, depth, temp + L.TempsAll(b.body));
    Spread(p, tests, body, if i + 1 < n then [Else] else [], PendingElse(i + 1, n, e), tail, RestOf(i, n, e, tail), i);
  }

  lemma BranchTemps(bs: seq<CaseBranch>, i: nat)
    requires i < |bs| && forall b <- bs :: b.values != []
    ensures L.TempsBranches(bs[i..]) == L.TempsAll(bs[i].body) + L.TempsBranches(bs[i + 1..])
    ensures CaseSizes(bs[i + 1..]) < CaseSizes(bs[i..]) && Sizes(bs[i].body) < CaseSizes(bs[i..])
  {
    assert bs[i..][0] == bs[i] && bs[i..][1..] == bs[i + 1..] && bs[i] in bs;
  }

  lemma NothingPending(i: nat, n: nat, e: ElseBranch)
    requires i < n
    ensures PendingElse(i, n, e) == []
  {}

  class IrLowerer {
    var currentBody: Code
    var currentLocals: seq<LocalVar>
    var loopDepth: nat

    constructor ()
      ensures currentBody == [] && currentLocals == [] && loopDepth == 0
    {
      currentBody, currentLocals, loopDepth := [], [], 0;
    }

    /** Temporaries are numbered consecutively. */
    ghost predicate Valid()
      reads this`currentLocals
    {
      forall i :: 0 <= i < |currentLocals| ==> currentLocals[i].index == i
    }

    method Push(i: Instruction)
      modifies this`currentBody
      ensures currentBody == old(currentBody) + [i]
    {
      currentBody := currentBody + [i];
    }

    method AllocTempLocal() returns (index: nat)
      requires Valid()
      modifies this`currentLocals
      ensures Valid() && index == old(|currentLocals|) && |currentLocals| == index + 1
    {
      index := |currentLocals|;
      currentLocals := currentLocals + [Temporary(index)];
    }

    method LowerLiteral(l: TypedLiteral)
      modifies this`currentBody
      ensures currentBody == old(currentBody) + [L.LiteralInstr(l)]
    {
      match l
      case BoolLiteral(b) => Push(I32Const(if b then 1 else 0));
      case IntegerLiteral(v, bits) => if bits <= 32 { Push(I32Const(L.CastI32(v))); } else { Push(I64Const(v)); }
    }

    method EmitLoad(ty: DataType, offset: nat)
      modifies this`currentBody
      ensures currentBody == old(currentBody) + [L.LoadInstr(ty, offset)]
    {
      match ty
      case Bool | Sint => Push(I32Load8S(offset));
      case Int => Push(I32Load16S(offset));
      case Dint => Push(I32Load(offset));
      case Lint => Push(I64Load(offset));
      case Array(_, _, _) => Push(I32Load(offset));
    }

    method EmitStore(ty: DataType)
      modifies this`currentBody
      ensures currentBody == old(currentBody) + [L.StoreInstr(ty)]
    {
      match ty
      case Bool | Sint => Push(I32Store8(0));
      case Int => Push(I32Store16(0));
      case Dint => Push(I32Store(0));
      case Lint => Push(I64Store(0));
      case Array(_, _, _) => Push(I32Store(0));
    }

    method EmitUnaryOp(op: UnaryOp)
      modifies this`currentBody
      ensures currentBody == old(currentBody) + if op == Neg then [I32Const(0), I32Sub] else [I32Const(1), I32Xor]
    {
      if op == Neg {
        Push(I32Const(0));
        Push(I32Sub);
      } else {
        Push(I32Const(1));
        Push(I32Xor);
      }
    }

    method LowerExpr(e: TypedExpr)
      modifies this`currentBody
      ensures currentBody == old(currentBody) + L.LowerExpr(e)
      decreases e, 1
    {
      ghost var before := currentBody;
      match e
      case Literal(l, _) => LowerLiteral(l);
      case Variable(_, offset, ty) =>
        Push(I32Const(0));
        EmitLoad(ty, L.CastU32(offset));
      case ArrayAccess(_, _, _, ty) =>
        PushElement(e);
        EmitLoad(ty, 0);
        Regroup(before, L.LowerElement(e), [L.LoadInstr(ty, 0)], []);
      case Binary(l, op, r, _) =>
        LowerExpr(l);
        LowerExpr(r);
        Push(L.BinaryInstr(op, l.ty));
        Regroup(before, L.LowerExpr(l), L.LowerExpr(r), [L.BinaryInstr(op, l.ty)]);
      case Unary(op, x, _) =>
        LowerExpr(x);
        EmitUnaryOp(op);
        Regroup(before, L.LowerExpr(x), if op == Neg then [I32Const(0), I32Sub] else [I32Const(1), I32Xor], []);
    }

    method PushElement(e: TypedExpr)
      requires e.ArrayAccess?
      modifies this`currentBody
      ensures currentBody == old(currentBody) + L.LowerElement(e)
      decreases e, 0
    {
      PushAddress(e.base);
      LowerExpr(e.index);
      Push(I32Const(L.CastI32(e.elementSize)));
      Push(I32Mul);
      Push(I32Add);
    }

    method PushAddress(e: TypedExpr)
      modifies this`currentBody
      ensures currentBody == old(currentBody) + L.LowerAddress(e)
      decreases e, 1
    {
      match e
      case Variable(_, offset, _) => Push(I32Const(L.CastI32(offset)));
      case ArrayAccess(_, _, _, _) => PushElement(e);
      case _ => Push(I32Const(0));
    }

    method LowerStatement(s: Statement)
      requires Valid()
      modifies this
      ensures Valid() && loopDepth == old(loopDepth)
      ensures currentBody == old(currentBody) + L.Lower(s, loopDepth, old(|currentLocals|))
      ensures |currentLocals| == old(|currentLocals|) + L.Temps(s)
      decreases Size(s), 1
    {
      match s
      case Assignment(target, value) =>
        PushAddress(target);
        LowerExpr(value);
        EmitStore(target.ty);
      case IfStatement(_, _, _, _) => LowerIf(s);
      case ForStatement(_, _, _, _, _, _) => LowerFor(s);
      case WhileStatement(_, _) => LowerWhile(s);
      case RepeatStatement(_, _) => LowerRepeat(s);
      case CaseStatement(_, _, _) => LowerCase(s);
      case ExitStatement => Push(Br(loopDepth));
      case ContinueStatement => Push(Br(0));
      case ReturnStatement(r) =>
        if r.Some? { LowerExpr(r.value); }
        Push(Return);
      case EmptyStatement =>
    }

    /** The statements of a body, one after the other. */
    method LowerStatements(ss: seq<Statement>)
      requires Valid()
      modifies this
      ensures Valid() && loopDepth == old(loopDepth)
      ensures currentBody == old(currentBody) + L.LowerAll(ss, loopDepth, old(|currentLocals|))
      ensures |currentLocals| == old(|currentLocals|) + L.TempsAll(ss)
      decreases Sizes(ss), 0
    {
      hide L.Lower, L.LowerAll, L.Temps, L.TempsAll, Sizes, Size;
      assert ss[0..] == ss;
      for i := 0 to |ss|
        invariant Valid() && loopDepth == old(loopDepth) && Sizes(ss[i..]) <= Sizes(ss)
        invariant currentBody + L.LowerAll(ss[i..], loopDepth, |currentLocals|)
               == old(currentBody) + L.LowerAll(ss, loopDepth, old(|currentLocals|))
        invariant |currentLocals| + L.TempsAll(ss[i..]) == old(|currentLocals|) + L.TempsAll(ss)
      {
        StatementsFrom(ss, i, loopDepth, |currentLocals|);
        Regroup(currentBody, L.Lower(ss[i], loopDepth, |currentLocals|),
                L.LowerAll(ss[i + 1..], loopDepth, |currentLocals| + L.Temps(ss[i])), []);
        LowerStatement(ss[i]);
      }
      NoStatements(ss, loopDepth, |currentLocals|);
    }

    method LowerIf(s: Statement)
      requires Valid() && s.IfStatement?
      modifies this
      ensures Valid() && loopDepth == old(loopDepth)
      ensures currentBody == old(currentBody) + L.Lower(s, loopDepth, old(|currentLocals|))
      ensures |currentLocals| == old(|currentLocals|) + L.Temps(s)
      decreases Size(s), 0
    {
      hide *;
      ghost var whole := currentBody + L.Lower(s, loopDepth, |currentLocals|);
      ghost var total := |currentLocals| + L.Temps(s);
      IfStarts(s, loopDepth, |currentLocals|);
      LowerExpr(s.condition);
      Push(If);
      LowerStatements(s.thenBranch);
      var n := |s.elsifs|;
      for i := 0 to n
        invariant Valid() && loopDepth == old(loopDepth) && Size(Remaining(s, i)) <= Size(s)
        invariant currentBody + L.LowerRest(Remaining(s, i), loopDepth, |currentLocals|) + Ends(i + 1) == whole
        invariant |currentLocals| + RestTemps(s, i) == total
      {
        ElsifEmitted(currentBody, s, i, loopDepth, |currentLocals|);
        ElsifTemps(s, i);
        RemainingNext(s, i);
        Push(Else);
        LowerExpr(s.elsifs[i].condition);
        Push(If);
        LowerStatements(s.elsifs[i].body);
      }
      IfEnds(s, loopDepth, |currentLocals|);
      if s.otherwise.ElseBody? {
        Push(Else);
        LowerStatements(s.otherwise.body);
      }
      PushEnds(n + 1);
    }

    method PushEnds(n: nat)
      modifies this`currentBody
      ensures currentBody == old(currentBody) + Ends(n)
    {
      for i := 0 to n
        invariant currentBody == old(currentBody) + Ends(i)
      {
        OneMoreEnd(i);
        Push(End);
      }
    }

    method BeginLoop()
      modifies this`currentBody, this`loopDepth
      ensures currentBody == old(currentBody) + [Block, Loop] && loopDepth == old(loopDepth) + 1
    {
      Push(Block);
      Push(Loop);
      loopDepth := loopDepth + 1;
    }

    method EndLoop()
      requires loopDepth >= 1
      modifies this`currentBody, this`loopDepth
      ensures currentBody == old(currentBody) + [Br(0), End, End] && loopDepth == old(loopDepth) - 1
    {
      Push(Br(0));
      loopDepth := loopDepth - 1;
      Push(End);
      Push(End);
    }

    method LowerForInit(s: Statement)
      requires s.ForStatement?
      modifies this`currentBody
      ensures currentBody == old(currentBody) + L.LowerForInit(s)
    {
      Push(I32Const(0));
      LowerExpr(s.first);
      Push(I32Store(L.CastU32(s.varOffset)));
    }

    method LowerForTest(s: Statement)
      requires s.ForStatement?
      modifies this`currentBody
      ensures currentBody == old(currentBody) + L.LowerForTest(s)
    {
      Push(I32Const(0));
      Push(I32Load(L.CastU32(s.varOffset)));
      LowerExpr(s.last);
      Push(I32GtS);
      Push(BrIf(1));
    }

    method LowerForStep(s: Statement)
      requires s.ForStatement?
      modifies this`currentBody
      ensures currentBody == old(currentBody) + L.LowerForStep(s)
    {
      Push(I32Const(0));
      Push(I32Const(0));
      Push(I32Load(L.CastU32(s.varOffset)));
      if s.step.Some? {
        LowerExpr(s.step.value);
      } else {
        Push(I32Const(1));
      }
      Push(I32Add);
      Push(I32Store(L.CastU32(s.varOffset)));
    }

    method LowerFor(s: Statement)
      requires Valid() && s.ForStatement?
      modifies this
      ensures Valid() && loopDepth == old(loopDepth)
      ensures currentBody == old(currentBody) + L.Lower(s, loopDepth, old(|currentLocals|))
      ensures |currentLocals| == old(|currentLocals|) + L.Temps(s)
      decreases Size(s), 0
    {
      ghost var before, temp := currentBody, |currentLocals|;
      LowerForInit(s);
      ghost var initialised := currentBody;
      BeginLoop();
      LowerForTest(s);
      LowerStatements(s.body);
      LowerForStep(s);
      EndLoop();
      ghost var body := L.LowerAll(s.body, loopDepth + 1, temp);
      Regroup(initialised + [Block, Loop], L.LowerForTest(s), body, L.LowerForStep(s));
      Regroup(initialised, [Block, Loop], L.LowerForTest(s) + body + L.LowerForStep(s), [Br(0), End, End]);
      Regroup(before, L.LowerForInit(s), L.LoopCode(L.LowerForTest(s) + body + L.LowerForStep(s)), []);
    }

    method LowerWhile(s: Statement)
      requires Valid() && s.WhileStatement?
      modifies this
      ensures Valid() && loopDepth == old(loopDepth)
      ensures currentBody == old(currentBody) + L.Lower(s, loopDepth, old(|currentLocals|))
      ensures |currentLocals| == old(|currentLocals|) + L.Temps(s)
      decreases Size(s), 0
    {
      ghost var before, temp := currentBody, |currentLocals|;
      BeginLoop();
      LowerExpr(s.condition);
      Push(I32Eqz);
      Push(BrIf(1));
      LowerStatements(s.body);
      EndLoop();
      ghost var body := L.LowerAll(s.body, loopDepth + 1, temp);
      Regroup(before + [Block, Loop], L.LowerExpr(s.condition), [I32Eqz], [BrIf(1)]);
      Regroup([], L.LowerExpr(s.condition), [I32Eqz], [BrIf(1)]);
      assert L.LowerWhileTest(s.condition) == L.LowerExpr(s.condition) + [I32Eqz] + [BrIf(1)];
      Regroup(before + [Block, Loop], L.LowerWhileTest(s.condition), body, []);
      Regroup(before, [Block, Loop], L.LowerWhileTest(s.condition) + body, [Br(0), End, End]);
    }

    method LowerRepeat(s: Statement)
      requires Valid() && s.RepeatStatement?
      modifies this
      ensures Valid() && loopDepth == old(loopDepth)
      ensures currentBody == old(currentBody) + L.Lower(s, loopDepth, old(|currentLocals|))
      ensures |currentLocals| == old(|currentLocals|) + L.Temps(s)
      decreases Size(s), 0
    {
      ghost var before, temp := currentBody, |currentLocals|;
      BeginLoop();
      LowerStatements(s.body);
      LowerExpr(s.until);
      Push(BrIf(1));
      EndLoop();
      ghost var body := L.LowerAll(s.body, loopDepth + 1, temp);
      Regroup(before + [Block, Loop] + body, L.LowerExpr(s.until), [BrIf(1)], []);
      Regroup(before + [Block, Loop], body, L.LowerUntil(s.until), []);
      Regroup(before, [Block, Loop], body + L.LowerUntil(s.until), [Br(0), End, End]);
    }

    method LowerCase(s: Statement)
      requires Valid() && s.CaseStatement?
      modifies this
      ensures Valid() && loopDepth == old(loopDepth)
      ensures currentBody == old(currentBody) + L.Lower(s, loopDepth, old(|currentLocals|))
      ensures |currentLocals| == old(|currentLocals|) + L.Temps(s)
      decreases Size(s), 0
    {
      hide *;
      ghost var whole := currentBody + L.Lower(s, loopDepth, |currentLocals|);
      ghost var total := |currentLocals| + L.Temps(s);
      CaseStarts(s, loopDepth, |currentLocals|);
      var sel := AllocTempLocal();
      LowerExpr(s.selector);
      Push(LocalSet(sel));
      var listed := Listed(s.branches);
      var n := |listed|;
      assert listed[0..] == listed;
      CaseEnds(listed, s.otherwise, sel, loopDepth, |currentLocals|);
      for i := 0 to n
        invariant Valid() && loopDepth == old(loopDepth) && CaseSizes(listed[i..]) <= CaseSizes(listed)
        invariant currentBody + PendingElse(i, n, s.otherwise)
                  + L.LowerBranches(listed[i..], s.otherwise, sel, loopDepth, |currentLocals|) + Ends(i) == whole
        invariant |currentLocals| + L.TempsBranches(listed[i..]) + L.TempsElse(s.otherwise) == total
      {
        BranchEmitted(currentBody, listed, i, s.otherwise, sel, loopDepth, |currentLocals|);
        BranchTemps(listed, i);
        ghost var was := currentBody;
        assert PendingElse(i, n, s.otherwise) == [] by { NothingPending(i, n, s.otherwise); }
        ghost var tests, body := L.LowerTests(listed[i].values, sel), L.LowerAll(listed[i].body, loopDepth, |currentLocals|);
        LowerTests(listed[i].values, sel);
        Push(If);
        LowerStatements(listed[i].body);
        if i + 1 < n {
          Push(Else);
        }
        assert currentBody == was + tests + [If] + body + if i + 1 < n then [Else] else [];
      }
      CaseEnds(listed, s.otherwise, sel, loopDepth, |currentLocals|);
      if s.otherwise.ElseBody? {
        if n != 0 {
          Push(Else);
        }
        LowerStatements(s.otherwise.body);
      }
      PushEnds(n);
    }

    method LowerTests(values: seq<int>, sel: nat)
      modifies this`currentBody
      ensures currentBody == old(currentBody) + L.LowerTests(values, sel)
    {
      for j := 0 to |values|
        invariant currentBody == old(currentBody) + L.LowerTests(values[..j], sel)
      {
        assert values[..j + 1][..j] == values[..j];
        Push(LocalGet(sel));
        Push(I32Const(L.CastI32(values[j])));
        Push(I32Eq);
        if j > 0 {
          Push(I32Or);
        }
      }
      assert values[..|values|] == values;
    }

    /** Compiles a program body to its step function. */
    method LowerProgram(body: seq<Statement>) returns (step: IrFunction)
      requires loopDepth == 0
      modifies this
      ensures step.body == L.LowerAll(body, 0, 0) && |step.locals| == L.TempsAll(body)
      ensures currentBody == [] && currentLocals == [] && loopDepth == 0
    {
      currentBody, currentLocals := [], [];
      LowerStatements(body);
      step := IrFunction(currentLocals, currentBody);
      currentBody, currentLocals := [], [];
    }
  }
}
