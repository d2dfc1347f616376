/** What emitted code makes of EXIT and CONTINUE: branches to enclosing labels. An IF, an ELSIF and a CASE branch open one
    label, which continues behind them; a loop opens two, its head inside the one that continues behind it. EXIT
    branches to the label numbered by the loops around it, CONTINUE to the innermost one. Everything else is as in
    SourceSemantics. */
module BranchSemantics {
  import opened Words
  import opened TypedTree
  import opened SourceSemantics

  /** The outcome seen from outside `n` conditionals: a branch to one of their labels ends that conditional. */
  function Out(o: Outcome, n: nat): (r: Outcome)
    ensures n == 0 ==> r == o
  {
    if !o.Jumped? then o
    else if o.target < n then Normal(o.st)
    else Jumped(o.st, o.target - n)
  }

  /** A branch to the head of the loop: its next iteration begins at once. */
  predicate ToHead(o: Outcome) { o.Jumped? && o.target == 0 }

  /** The outcome of a loop whose body ended otherwise: the label behind the head is the one that leaves the loop. */
  function OutOfLoop(o: Outcome): Outcome
    requires !o.Normal? && !ToHead(o)
  {
    if !o.Jumped? then o
    else if o.target == 1 then Normal(o.st)
    else Jumped(o.st, o.target - 2)
  }

  /** A statement within `depth` loops. */
  function Run(s: Statement, st: Store, fuel: nat, depth: nat): Outcome
    decreases fuel, Size(s), 1
  {
    match s
    case IfStatement(c, thenBranch, elsifs, otherwise) =>
      (match Eval(c, st)
       case Val(v) =>
         if v != 0 then Out(RunAll(thenBranch, st, fuel, depth), 1)
         else if elsifs != [] then Out(Run(NextElsif(s), st, fuel, depth), 1)
         else Out(RunElse(otherwise, st, fuel, depth), 1)
       case failed => Failed(failed, st))
    case WhileStatement(c, body) =>
      if fuel == 0 then OutOfFuel
      else (match Eval(c, st)
        case Val(v) =>
          if v == 0 then Normal(st) else
          var o := RunAll(body, st, fuel - 1, depth + 1);
          if o.Normal? || ToHead(o) then Run(s, o.st, fuel - 1, depth) else OutOfLoop(o)
        case failed => Failed(failed, st))
    case RepeatStatement(body, until) =>
      if fuel == 0 then OutOfFuel
      else
        var o := RunAll(body, st, fuel - 1, depth + 1);
        if ToHead(o) then Run(s, o.st, fuel - 1, depth)
        else if !o.Normal? then OutOfLoop(o)
        else (match Eval(until, o.st)
          case Val(v) => if v != 0 then Normal(o.st) else Run(s, o.st, fuel - 1, depth)
          case failed => Failed(failed, o.st))
    case ForStatement(x, _, first, _, _, _) =>
      (match Eval(first, st)
       case Val(v) => RunIterations(s, st[Cell(x, 0) := v], fuel, depth)
       case failed => Failed(failed, st))
    case CaseStatement(selector, branches, otherwise) =>
      (match Eval(selector, st)
       case Val(v) => RunBranches(branches, otherwise, v, st, fuel, depth)
       case failed => Failed(failed, st))
    case ExitStatement => Jumped(st, depth)
    case ContinueStatement => Jumped(st, 0)
    case _ => Exec(s, st, fuel)
  }

  function RunAll(ss: seq<Statement>, st: Store, fuel: nat, depth: nat): Outcome
    decreases fuel, Sizes(ss), 0
  {
    if ss == [] then Normal(st) else
    var o := Run(ss[0], st, fuel, depth);
    if o.Normal? then RunAll(ss[1..], o.st, fuel, depth) else o
  }

  function RunElse(e: ElseBranch, st: Store, fuel: nat, depth: nat): Outcome
    decreases fuel, ElseSize(e), 0
  {
    if e.NoElse? then Normal(st) else RunAll(e.body, st, fuel, depth)
  }

  /** A CASE branch is a conditional inside those of the branches before it, as with ELSIF; branches without values are
      not compiled. */
  function RunBranches(bs: seq<CaseBranch>, e: ElseBranch, v: I32, st: Store, fuel: nat, depth: nat): Outcome
    decreases fuel, CaseSizes(bs) + ElseSize(e), 1
  {
    if bs == [] then RunElse(e, st, fuel, depth)
    else if v in bs[0].values then Out(RunAll(bs[0].body, st, fuel, depth), 1)
    else Out(RunBranches(bs[1..], e, v, st, fuel, depth), if bs[0].values == [] then 0 else 1)
  }

  /** A branch to the head of a FOR skips its step. */
  function RunIterations(s: Statement, st: Store, fuel: nat, depth: nat): Outcome
    requires s.ForStatement?
    decreases fuel, Size(s), 0
  {
    if fuel == 0 then OutOfFuel else
    match Eval(s.last, st)
    case Val(bound) =>
      if Get(st, Cell(s.variable, 0)) > bound then Normal(st) else
      var o := RunAll(s.body, st, fuel - 1, depth + 1);
      if ToHead(o) then RunIterations(s, o.st, fuel - 1, depth)
      else if !o.Normal? then OutOfLoop(o)
      else (match EvalStep(s.step, o.st)
        case Val(d) =>
          RunIterations(s, o.st[Cell(s.variable, 0) := Wrap32(Get(o.st, Cell(s.variable, 0)) + d)], fuel - 1, depth)
        case failed => Failed(failed, o.st))
    case failed => Failed(failed, st)
  }

  // ---- Branches name existing labels ------------------------------------------------

  /** A branch out of statements within `depth` loops goes past at most `depth` labels: none if there is no loop. */
  lemma {:induction false} BranchesStayInside(ss: seq<Statement>, st: Store, fuel: nat, depth: nat)
    ensures var o := RunAll(ss, st, fuel, depth); o.Jumped? ==> o.target <= depth
    decreases fuel, Sizes(ss), 0
  {
    hide Run;
    if ss != [] {
      BranchStaysInside(ss[0], st, fuel, depth);
      var o := Run(ss[0], st, fuel, depth);
      if o.Normal? { BranchesStayInside(ss[1..], o.st, fuel, depth); }
    }
  }

  lemma {:induction false} BranchStaysInside(s: Statement, st: Store, fuel: nat, depth: nat)
    ensures var o := Run(s, st, fuel, depth); o.Jumped? ==> o.target <= depth
    decreases fuel, Size(s), 1
  {
    hide Eval, RunAll, RunBranches, RunIterations;
    match s
    case IfStatement(_, t, es, e) =>
      BranchesStayInside(t, st, fuel, depth);
      if es != [] {
        BranchStaysInside(NextElsif(s), st, fuel, depth);
      } else if e.ElseBody? {
        assert ElseSize(e) < Size(s);
        BranchesStayInside(e.body, st, fuel, depth);
      }
    case WhileStatement(_, body) =>
      if fuel > 0 {
        BranchesStayInside(body, st, fuel - 1, depth + 1);
        var o := RunAll(body, st, fuel - 1, depth + 1);
        if o.Normal? || ToHead(o) { BranchStaysInside(s, o.st, fuel - 1, depth); }
      }
    case RepeatStatement(body, _) =>
      if fuel > 0 {
        BranchesStayInside(body, st, fuel - 1, depth + 1);
        var o := RunAll(body, st, fuel - 1, depth + 1);
        if o.Normal? || ToHead(o) { BranchStaysInside(s, o.st, fuel - 1, depth); }
      }
    case ForStatement(x, _, first, _, _, _) =>
      var v := Eval(first, st);
      if v.Val? { IterationsStayInside(s, st[Cell(x, 0) := v.v], fuel, depth); }
    case CaseStatement(selector, bs, e) =>
      var v := Eval(selector, st);
      if v.Val? { CaseStaysInside(bs, e, v.v, st, fuel, depth); }
    case _ => ExecDoesNotJump(s, st, fuel);
  }

  lemma ExecDoesNotJump(s: Statement, st: Store, fuel: nat)
    requires s.Assignment? || s.ReturnStatement? || s.ExitStatement? || s.ContinueStatement? || s.EmptyStatement?
    ensures !Exec(s, st, fuel).Jumped?
  {}

  lemma {:induction false} IterationsStayInside(s: Statement, st: Store, fuel: nat, depth: nat)
    requires s.ForStatement?
    ensures var o := RunIterations(s, st, fuel, depth); o.Jumped? ==> o.target <= depth
    decreases fuel, Size(s), 0
  {
    hide Eval, EvalStep, RunAll, Wrap32;
    if fuel > 0 {
      BranchesStayInside(s.body, st, fuel - 1, depth + 1);
      var o, c := RunAll(s.body, st, fuel - 1, depth + 1), Cell(s.variable, 0);
      if ToHead(o) {
        IterationsStayInside(s, o.st, fuel - 1, depth);
      } else if o.Normal? && EvalStep(s.step, o.st).Val? {
        IterationsStayInside(s, o.st[c := Wrap32(Get(o.st, c) + EvalStep(s.step, o.st).v)], fuel - 1, depth);
      }
    }
  }

  lemma {:induction false} CaseStaysInside(bs: seq<CaseBranch>, e: ElseBranch, v: I32, st: Store, fuel: nat, depth: nat)
    ensures var o := RunBranches(bs, e, v, st, fuel, depth); o.Jumped? ==> o.target <= depth
    decreases fuel, CaseSizes(bs) + ElseSize(e), 1
  {
    hide RunAll;
    if bs == [] {
      if e.ElseBody? { BranchesStayInside(e.body, st, fuel, depth); }
    } else if v in bs[0].values {
      BranchesStayInside(bs[0].body, st, fuel, depth);
    } else {
      CaseStaysInside(bs[1..], e, v, st, fuel, depth);
    }
  }
}
