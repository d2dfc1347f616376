/** When the code of a program with EXIT and CONTINUE does what the program means, wherever they stand. */
module JumpsRight {
  import opened Words
  import opened TypedTree
  import opened TypeChecker
  import opened SourceSemantics
  import opened BranchSemantics
  import opened WasmMachine
  import opened Lowering
  import opened ExprCorrect
  import opened StatementCorrect
  import opened CompilerCorrect

  // ---- When the code does what the source means -----------------------------------------

  /** Called on memory `mem` that represents `st`, the code halts with the source's result if the source ends, and runs
      forever if the source does. */
  ghost predicate Right(vars: Symbols, body: seq<Statement>, st: Store, mem: Memory)
  {
    && (forall fuel :: var o := ExecAll(body, st, fuel);
          !o.OutOfFuel? ==> exists n :: Shows(vars, MachineAfter(body, mem, n), o, ProcessImage(mem)))
    && ((forall fuel :: ExecAll(body, st, fuel).OutOfFuel?) ==> forall n :: MachineAfter(body, mem, n).Running?)
  }

  lemma PlacedIsRight(vars: Symbols, body: seq<Statement>, st: Store, mem: Memory)
    requires Compilable(vars, body) && Represents(vars, st, mem)
    ensures Right(vars, body, st, mem)
  {
    forall fuel ensures var o := ExecAll(body, st, fuel);
      if o.OutOfFuel? then MachineAfter(body, mem, fuel).Running?
      else exists n :: Shows(vars, MachineAfter(body, mem, n), o, ProcessImage(mem))
    {
      CompiledAgrees(vars, body, st, mem, fuel);
    }
    if forall fuel :: ExecAll(body, st, fuel).OutOfFuel? {
      forall n ensures MachineAfter(body, mem, n).Running? {
        assert ExecAll(body, st, n).OutOfFuel?;
      }
    }
  }

  /** Both stores are well formed and agree on every cell of a supported type. */
  ghost predicate SameValues(vars: Symbols, a: Store, b: Store)
  {
    && WellFormed(vars, a) && WellFormed(vars, b)
    && forall c :: IsCell(vars, c) && CellType(vars, c).IsWord() ==> Get(a, c) == Get(b, c)
  }

  /** The same kind of end with the same values. */
  ghost predicate SameEnd(vars: Symbols, a: Outcome, b: Outcome)
  {
    match a
    case Normal(st) => (b.Normal? || b.Returned? || b.Jumped?) && SameValues(vars, st, b.st)
    case Returned(st) => (b.Normal? || b.Returned? || b.Jumped?) && SameValues(vars, st, b.st)
    case Jumped(st, _) => (b.Normal? || b.Returned? || b.Jumped?) && SameValues(vars, st, b.st)
    case Trapped(st) => b.Trapped? && SameValues(vars, st, b.st)
    case _ => false
  }

  /** The body, run as the source means and run by branches, ends alike or not at all. */
  ghost predicate EndsAlike(vars: Symbols, body: seq<Statement>, st: Store)
  {
    && ((forall fuel :: ExecAll(body, st, fuel).OutOfFuel?) <==> (forall fuel :: RunAll(body, st, fuel, 0).OutOfFuel?))
    && forall f, g :: !ExecAll(body, st, f).OutOfFuel? && !RunAll(body, st, g, 0).OutOfFuel? ==>
         SameEnd(vars, ExecAll(body, st, f), RunAll(body, st, g, 0))
  }

  lemma ValueInMemory(vars: Symbols, st: Store, mem: Memory, c: Cell)
    requires Represents(vars, st, mem) && IsCell(vars, c) && CellType(vars, c).IsWord()
    ensures Width(vars, c) in {1, 2, 4} && Address(vars, c) + Width(vars, c) <= |mem|
    ensures LoadS(mem, Address(vars, c), Width(vars, c)) == Get(st, c)
  {
    assert c in st && CellStored(vars, st, mem, c);
  }

  /** Memory that represents one store represents exactly those with the same values. */
  lemma SameMemorySameValues(vars: Symbols, a: Store, b: Store, mem: Memory)
    requires Represents(vars, a, mem)
    ensures Represents(vars, b, mem) <==> SameValues(vars, a, b)
  {
    hide Address, Width, CellType, IsCell, LoadS;
    if Represents(vars, b, mem) {
      forall c | IsCell(vars, c) && CellType(vars, c).IsWord() ensures Get(a, c) == Get(b, c) {
        ValueInMemory(vars, a, mem, c);
        ValueInMemory(vars, b, mem, c);
      }
    }
    if SameValues(vars, a, b) {
      forall c <- b ensures CellStored(vars, b, mem, c) {
        if CellType(vars, c).IsWord() { ValueInMemory(vars, a, mem, c); }
      }
    }
  }

  lemma BothShown(vars: Symbols, t: State, a: Outcome, b: Outcome, io: seq<Byte>)
    requires Shows(vars, t, b, io) && !b.NoMeaning?
    ensures SameEnd(vars, a, b) ==> Shows(vars, t, a, io)
    ensures Shows(vars, t, a, io) && !a.NoMeaning? ==> SameEnd(vars, a, b)
  {
    hide Represents, SameValues;
    if !a.Exited? && !a.Continued? && !a.NoMeaning? && !a.OutOfFuel? && (b.Trapped? <==> a.Trapped?) {
      SameMemorySameValues(vars, b.st, a.st, t.mem);
      SameValuesBack(vars, a.st, b.st);
    }
  }

  lemma SameValuesBack(vars: Symbols, a: Store, b: Store)
    ensures SameValues(vars, a, b) <==> SameValues(vars, b, a)
  {}

  lemma HaltsOnce(body: seq<Statement>, mem: Memory, n: nat, k: nat)
    requires !MachineAfter(body, mem, n).Running? && !MachineAfter(body, mem, k).Running?
    ensures MachineAfter(body, mem, n) == MachineAfter(body, mem, k)
  {
    var code, m := StepCode(body), Start(mem, TempsAll(body));
    if k <= n { HaltedStays(code, m, k, n); } else { HaltedStays(code, m, n, k); }
  }

  /** Run by branches, the body does not leave the modelled language from `st`. */
  ghost predicate BranchesMeaningfulAt(body: seq<Statement>, st: Store)
  {
    forall fuel: nat :: !RunAll(body, st, fuel, 0).NoMeaning?
  }

  lemma RunsForever(vars: Symbols, body: seq<Statement>, st: Store, mem: Memory, n: nat)
    requires WellTypedStatements(vars, body) && AllSupported(vars, body) && Represents(vars, st, mem)
    requires forall fuel :: RunAll(body, st, fuel, 0).OutOfFuel?
    ensures MachineAfter(body, mem, n).Running?
  {
    CodeAgrees(vars, body, st, mem, n);
  }

  lemma CodeEnds(vars: Symbols, body: seq<Statement>, st: Store, mem: Memory, g: nat) returns (n: nat)
    requires WellTypedStatements(vars, body) && AllSupported(vars, body) && Represents(vars, st, mem)
    requires !RunAll(body, st, g, 0).OutOfFuel? && !RunAll(body, st, g, 0).NoMeaning?
    ensures Shows(vars, MachineAfter(body, mem, n), RunAll(body, st, g, 0), ProcessImage(mem))
    ensures !MachineAfter(body, mem, n).Running?
  {
    CodeAgrees(vars, body, st, mem, g);
    n :| Shows(vars, MachineAfter(body, mem, n), RunAll(body, st, g, 0), ProcessImage(mem));
  }

  /** Two ends, both shown by the machine, are the same. */
  lemma EndsMatch(vars: Symbols, body: seq<Statement>, st: Store, mem: Memory, f: nat, g: nat)
    requires WellTypedStatements(vars, body) && AllSupported(vars, body) && Represents(vars, st, mem)
    requires Right(vars, body, st, mem)
    requires !ExecAll(body, st, f).OutOfFuel? && !ExecAll(body, st, f).NoMeaning?
    requires !RunAll(body, st, g, 0).OutOfFuel? && !RunAll(body, st, g, 0).NoMeaning?
    ensures SameEnd(vars, ExecAll(body, st, f), RunAll(body, st, g, 0))
  {
    hide WellTypedStatements, AllSupported, Represents, RunAll, ExecAll, MachineAfter, MemoryIs, ProcessImage, SameEnd;
    var a, b, io := ExecAll(body, st, f), RunAll(body, st, g, 0), ProcessImage(mem);
    var n := CodeEnds(vars, body, st, mem, g);
    var k :| Shows(vars, MachineAfter(body, mem, k), a, io);
    HaltsOnce(body, mem, n, k);
    BothShown(vars, MachineAfter(body, mem, n), a, b, io);
  }

  lemma RightEndsAlike(vars: Symbols, body: seq<Statement>, st: Store, mem: Memory)
    requires WellTypedStatements(vars, body) && AllSupported(vars, body) && Represents(vars, st, mem)
    requires MeaningfulAt(body, st) && BranchesMeaningfulAt(body, st) && Right(vars, body, st, mem)
    ensures EndsAlike(vars, body, st)
  {
    hide WellTypedStatements, AllSupported, Represents, RunAll, ExecAll, MachineAfter, SameEnd, MemoryIs;
    forall f: nat, g: nat | !ExecAll(body, st, f).OutOfFuel? && !RunAll(body, st, g, 0).OutOfFuel?
      ensures SameEnd(vars, ExecAll(body, st, f), RunAll(body, st, g, 0))
    {
      EndsMatch(vars, body, st, mem, f, g);
    }
    if forall fuel :: ExecAll(body, st, fuel).OutOfFuel? {
      forall g: nat ensures RunAll(body, st, g, 0).OutOfFuel? {
        if !RunAll(body, st, g, 0).OutOfFuel? { var n := CodeEnds(vars, body, st, mem, g); }
      }
    }
    if forall fuel :: RunAll(body, st, fuel, 0).OutOfFuel? {
      forall f: nat ensures ExecAll(body, st, f).OutOfFuel? {
        if !ExecAll(body, st, f).OutOfFuel? {
          var n :| Shows(vars, MachineAfter(body, mem, n), ExecAll(body, st, f), ProcessImage(mem));
          RunsForever(vars, body, st, mem, n);
        }
      }
    }
  }

  lemma AlikeIsRight(vars: Symbols, body: seq<Statement>, st: Store, mem: Memory)
    requires WellTypedStatements(vars, body) && AllSupported(vars, body) && Represents(vars, st, mem)
    requires BranchesMeaningfulAt(body, st) && EndsAlike(vars, body, st)
    ensures Right(vars, body, st, mem)
  {
    hide WellTypedStatements, AllSupported, Represents, RunAll, ExecAll, MachineAfter, SameEnd, Shows;
    forall f: nat | !ExecAll(body, st, f).OutOfFuel?
      ensures exists n :: Shows(vars, MachineAfter(body, mem, n), ExecAll(body, st, f), ProcessImage(mem))
    {
      var g: nat :| !RunAll(body, st, g, 0).OutOfFuel?;
      var n := CodeEnds(vars, body, st, mem, g);
      BothShown(vars, MachineAfter(body, mem, n), ExecAll(body, st, f), RunAll(body, st, g, 0), ProcessImage(mem));
    }
    if forall fuel :: ExecAll(body, st, fuel).OutOfFuel? {
      forall n ensures MachineAfter(body, mem, n).Running? { RunsForever(vars, body, st, mem, n); }
    }
  }

  /** The exact condition, for any supported body: called on memory that represents `st`, its code does what the source
      means if and only if the body, run by branches from `st`, ends as it ends by its meaning. */
  lemma RightIff(vars: Symbols, body: seq<Statement>, st: Store, mem: Memory)
    requires WellTypedStatements(vars, body) && AllSupported(vars, body) && Represents(vars, st, mem)
    requires MeaningfulAt(body, st) && BranchesMeaningfulAt(body, st)
    ensures Right(vars, body, st, mem) <==> EndsAlike(vars, body, st)
  {
    hide *;
    if Right(vars, body, st, mem) { RightEndsAlike(vars, body, st, mem); }
    if EndsAlike(vars, body, st) { AlikeIsRight(vars, body, st, mem); }
  }
}
