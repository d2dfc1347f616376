/** Where EXIT and CONTINUE may stand so that their branches go where the source goes on. */
module Placement {
  import opened Words
  import opened TypedTree
  import opened SourceSemantics
  import opened BranchSemantics

  // ---- Well-placed jumps ---------------------------------------------------------

  /** Numbers for the points at which a run goes on: after a statement's end, at each label around it, after an EXIT and
      after a CONTINUE of the loop around it. */
  datatype Points = Points(next: nat, labels: seq<nat>, exit: nat, cont: nat)
  {
    /** All points are below `free`. */
    predicate Below(free: nat)
    {
      next < free && exit < free && cont < free && forall i :: 0 <= i < |labels| ==> labels[i] < free
    }

    /** In a branch of a conditional: its label continues where the conditional ends. */
    function InIf(): Points { this.(labels := [next] + labels) }

    /** In the body of a loop: the label of its head leads to `head`, the other one behind the loop. The body's end and
        CONTINUE go on at `end`: the head of a WHILE, the condition of a REPEAT, the step of a FOR. */
    function InLoop(head: nat, end: nat): Points { Points(end, [head, next] + labels, next, end) }
  }

  /** The body of a program: the label of the function leads to its end; outside loops EXIT and CONTINUE lead nowhere. */
  const PROGRAM := Points(0, [0], 1, 1)

  /** Every EXIT and CONTINUE within `s`, which stands in `depth` loops, branches to a label that leads to the point where
      the source goes on. Points are told apart by numbers from `free` on. */
  predicate JumpsPlaced(s: Statement, p: Points, free: nat, depth: nat)
    decreases Size(s)
  {
    match s
    case IfStatement(_, t, es, e) =>
      && AllPlaced(t, p.InIf(), free, depth)
      && if es == [] then ElsePlaced(e, p.InIf(), free, depth) else JumpsPlaced(NextElsif(s), p.InIf(), free, depth)
    case WhileStatement(_, body) => AllPlaced(body, p.InLoop(free, free), free + 1, depth + 1)
    case RepeatStatement(body, _) => AllPlaced(body, p.InLoop(free, free + 1), free + 2, depth + 1)
    case ForStatement(_, _, _, _, _, body) => AllPlaced(body, p.InLoop(free, free + 1), free + 2, depth + 1)
    case CaseStatement(_, bs, e) => BranchesPlaced(bs, e, p, free, depth)
    case ExitStatement => depth < |p.labels| && p.labels[depth] == p.exit
    case ContinueStatement => p.labels != [] && p.labels[0] == p.cont
    case _ => true
  }

  predicate AllPlaced(ss: seq<Statement>, p: Points, free: nat, depth: nat)
    decreases Sizes(ss)
  {
    if ss == [] then true
    else if ss[1..] == [] then JumpsPlaced(ss[0], p, free, depth)
    else JumpsPlaced(ss[0], p.(next := free), free + 1, depth) && AllPlaced(ss[1..], p, free, depth)
  }

  predicate ElsePlaced(e: ElseBranch, p: Points, free: nat, depth: nat)
    decreases ElseSize(e), 0
  {
    e.ElseBody? ==> AllPlaced(e.body, p, free, depth)
  }

  predicate BranchesPlaced(bs: seq<CaseBranch>, e: ElseBranch, p: Points, free: nat, depth: nat)
    decreases CaseSizes(bs) + ElseSize(e), 1
  {
    if bs == [] then ElsePlaced(e, p, free, depth)
    else if bs[0].values == [] then BranchesPlaced(bs[1..], e, p, free, depth)
    else AllPlaced(bs[0].body, p.InIf(), free, depth) && BranchesPlaced(bs[1..], e, p.InIf(), free, depth)
  }

  // ---- Well-placed jumps keep the meaning --------------------------------------------

  /** The source's outcome `a` and the code's outcome `b` go on at the same point with the same store, or end alike. */
  ghost predicate SameWay(a: Outcome, b: Outcome, p: Points)
  {
    match a
    case Normal(st) => GoesTo(b, st, p.next, p)
    case Exited(st) => GoesTo(b, st, p.exit, p)
    case Continued(st) => GoesTo(b, st, p.cont, p)
    case Jumped(_, _) => false
    case _ => b == a
  }

  ghost predicate GoesTo(b: Outcome, st: Store, point: nat, p: Points)
  {
    (b == Normal(st) && point == p.next) || (b.Jumped? && b.st == st && b.target < |p.labels| && p.labels[b.target] == point)
  }

  lemma OutOfIf(a: Outcome, b: Outcome, p: Points)
    requires SameWay(a, b, p.InIf())
    ensures SameWay(a, Out(b, 1), p)
  {}

  /** One iteration of a loop: the source begins the next one exactly if the code does, and with the same store. */
  lemma OutOfLoopBody(a: Outcome, b: Outcome, p: Points, head: nat, end: nat)
    requires SameWay(a, b, p.InLoop(head, end)) && p.Below(head) && p.Below(end)
    ensures if a.Normal? || a.Continued? then (b.Normal? || (ToHead(b) && head == end)) && b.st == a.st
            else !b.Normal? && !ToHead(b) && SameWay(if a.Exited? then Normal(a.st) else a, OutOfLoop(b), p)
  {
    var q := p.InLoop(head, end);
    assert q.labels[0] == head && q.labels[1] == p.next;
    assert forall i :: 2 <= i < |q.labels| ==> q.labels[i] == p.labels[i - 2];
  }

  /** If every EXIT and CONTINUE is well placed, the code's branches go the way of the source. */
  lemma {:induction false} PlacedGoesSameWay(s: Statement, p: Points, free: nat, depth: nat, st: Store, fuel: nat)
    requires JumpsPlaced(s, p, free, depth) && p.Below(free)
    ensures SameWay(Exec(s, st, fuel), Run(s, st, fuel, depth), p)
    decreases fuel, Size(s), 1
  {
    hide Eval, EvalPlace, Narrow, SameWay, RunAll, ExecAll, RunBranches, ExecBranches, RunIterations, Iterate;
    match s
    case IfStatement(c, t, es, e) =>
      var v := Eval(c, st);
      if v.Val? && v.v != 0 {
        AllPlacedGoSameWay(t, p.InIf(), free, depth, st, fuel);
        OutOfIf(ExecAll(t, st, fuel), RunAll(t, st, fuel, depth), p);
      } else if v.Val? && es != [] {
        PlacedGoesSameWay(NextElsif(s), p.InIf(), free, depth, st, fuel);
        OutOfIf(Exec(NextElsif(s), st, fuel), Run(NextElsif(s), st, fuel, depth), p);
      } else if v.Val? {
        assert ElseSize(e) < Size(s);
        ElsePlacedGoesSameWay(e, p.InIf(), free, depth, st, fuel);
        OutOfIf(ExecElse(e, st, fuel), RunElse(e, st, fuel, depth), p);
      } else {
        Alike(Failed(v, st), p);
      }
    case WhileStatement(_, _) => WhileGoesSameWay(s, p, free, depth, st, fuel);
    case RepeatStatement(_, _) => RepeatGoesSameWay(s, p, free, depth, st, fuel);
    case ForStatement(x, _, first, _, _, _) =>
      var v := Eval(first, st);
      if v.Val? { IterationsGoSameWay(s, p, free, depth, st[Cell(x, 0) := v.v], fuel); } else { Alike(Failed(v, st), p); }
    case CaseStatement(selector, bs, e) =>
      var v := Eval(selector, st);
      if v.Val? { BranchesGoSameWay(bs, e, p, free, depth, v.v, st, fuel); } else { Alike(Failed(v, st), p); }
    case ExitStatement => JumpsAlike(Exited(st), depth, p);
    case ContinueStatement => JumpsAlike(Continued(st), 0, p);
    case _ => Alike(Exec(s, st, fuel), p);
  }

  lemma Alike(o: Outcome, p: Points)
    requires !o.Exited? && !o.Continued? && !o.Jumped?
    ensures SameWay(o, o, p)
  {}

  lemma JumpsAlike(a: Outcome, target: nat, p: Points)
    requires a.Exited? || a.Continued?
    requires target < |p.labels| && p.labels[target] == if a.Exited? then p.exit else p.cont
    ensures SameWay(a, Jumped(a.st, target), p)
  {}

  lemma {:induction false} AllPlacedGoSameWay(ss: seq<Statement>, p: Points, free: nat, depth: nat, st: Store, fuel: nat)
    requires AllPlaced(ss, p, free, depth) && p.Below(free)
    ensures SameWay(ExecAll(ss, st, fuel), RunAll(ss, st, fuel, depth), p)
    decreases fuel, Sizes(ss), 0
  {
    hide Exec, Run, JumpsPlaced;
    if ss != [] {
      var last := ss[1..] == [];
      var q := if last then p else p.(next := free);
      PlacedGoesSameWay(ss[0], q, if last then free else free + 1, depth, st, fuel);
      var a := Exec(ss[0], st, fuel);
      if a.Normal? && !last { AllPlacedGoSameWay(ss[1..], p, free, depth, a.st, fuel); }
    }
  }

  lemma {:induction false} ElsePlacedGoesSameWay(e: ElseBranch, p: Points, free: nat, depth: nat, st: Store, fuel: nat)
    requires ElsePlaced(e, p, free, depth) && p.Below(free)
    ensures SameWay(ExecElse(e, st, fuel), RunElse(e, st, fuel, depth), p)
    decreases fuel, ElseSize(e), 0
  {
    if e.ElseBody? { AllPlacedGoSameWay(e.body, p, free, depth, st, fuel); }
  }

  lemma {:induction false} BranchesGoSameWay(bs: seq<CaseBranch>, e: ElseBranch, p: Points, free: nat, depth: nat, v: I32,
                                             st: Store, fuel: nat)
    requires BranchesPlaced(bs, e, p, free, depth) && p.Below(free)
    ensures SameWay(ExecBranches(bs, e, v, st, fuel), RunBranches(bs, e, v, st, fuel, depth), p)
    decreases fuel, CaseSizes(bs) + ElseSize(e), 1
  {
    hide SameWay, RunAll, ExecAll, RunElse, ExecElse;
    if bs == [] {
      ElsePlacedGoesSameWay(e, p, free, depth, st, fuel);
    } else if bs[0].values == [] {
      BranchesGoSameWay(bs[1..], e, p, free, depth, v, st, fuel);
    } else if v in bs[0].values {
      AllPlacedGoSameWay(bs[0].body, p.InIf(), free, depth, st, fuel);
      OutOfIf(ExecAll(bs[0].body, st, fuel), RunAll(bs[0].body, st, fuel, depth), p);
    } else {
      BranchesGoSameWay(bs[1..], e, p.InIf(), free, depth, v, st, fuel);
      OutOfIf(ExecBranches(bs[1..], e, v, st, fuel), RunBranches(bs[1..], e, v, st, fuel, depth), p);
    }
  }

  lemma {:induction false} WhileGoesSameWay(s: Statement, p: Points, free: nat, depth: nat, st: Store, fuel: nat)
    requires s.WhileStatement? && JumpsPlaced(s, p, free, depth) && p.Below(free)
    ensures SameWay(Exec(s, st, fuel), Run(s, st, fuel, depth), p)
    decreases fuel, Size(s), 0
  {
    hide Eval, SameWay, RunAll, ExecAll;
    var v := Eval(s.condition, st);
    if fuel > 0 && v.Val? && v.v != 0 {
      var a, b := ExecAll(s.body, st, fuel - 1), RunAll(s.body, st, fuel - 1, depth + 1);
      AllPlacedGoSameWay(s.body, p.InLoop(free, free), free + 1, depth + 1, st, fuel - 1);
      OutOfLoopBody(a, b, p, free, free);
      if a.Normal? || a.Continued? { WhileGoesSameWay(s, p, free, depth, a.st, fuel - 1); }
    } else {
      Alike(Exec(s, st, fuel), p);
    }
  }

  lemma {:induction false} RepeatGoesSameWay(s: Statement, p: Points, free: nat, depth: nat, st: Store, fuel: nat)
    requires s.RepeatStatement? && JumpsPlaced(s, p, free, depth) && p.Below(free)
    ensures SameWay(Exec(s, st, fuel), Run(s, st, fuel, depth), p)
    decreases fuel, Size(s), 0
  {
    hide Eval, SameWay, RunAll, ExecAll;
    if fuel > 0 {
      var a, b := ExecAll(s.body, st, fuel - 1), RunAll(s.body, st, fuel - 1, depth + 1);
      AllPlacedGoSameWay(s.body, p.InLoop(free, free + 1), free + 2, depth + 1, st, fuel - 1);
      OutOfLoopBody(a, b, p, free, free + 1);
      if a.Normal? || a.Continued? {
        var v := Eval(s.until, a.st);
        if v.Val? && v.v == 0 { RepeatGoesSameWay(s, p, free, depth, a.st, fuel - 1); } else { Alike(Exec(s, st, fuel), p); }
      }
    } else {
      Alike(OutOfFuel, p);
    }
  }

  lemma {:induction false} IterationsGoSameWay(s: Statement, p: Points, free: nat, depth: nat, st: Store, fuel: nat)
    requires s.ForStatement? && JumpsPlaced(s, p, free, depth) && p.Below(free)
    ensures SameWay(Iterate(s, st, fuel), RunIterations(s, st, fuel, depth), p)
    decreases fuel, Size(s), 0
  {
    hide Eval, EvalStep, Wrap32, SameWay, RunAll, ExecAll;
    var v, c := Eval(s.last, st), Cell(s.variable, 0);
    if fuel > 0 && v.Val? && Get(st, c) <= v.v {
      var a, b := ExecAll(s.body, st, fuel - 1), RunAll(s.body, st, fuel - 1, depth + 1);
      AllPlacedGoSameWay(s.body, p.InLoop(free, free + 1), free + 2, depth + 1, st, fuel - 1);
      OutOfLoopBody(a, b, p, free, free + 1);
      if a.Normal? || a.Continued? {
        var d := EvalStep(s.step, a.st);
        if d.Val? {
          IterationsGoSameWay(s, p, free, depth, a.st[c := Wrap32(Get(a.st, c) + d.v)], fuel - 1);
        } else {
          Alike(Failed(d, a.st), p);
        }
      }
    } else {
      Alike(Iterate(s, st, fuel), p);
    }
  }
}
