/** Registration of variables: allocation of byte offsets, and checking of whole programs. */
module Layout {
  import opened Wrappers
  import opened TypedTree
  import opened TypeChecker
  import opened Typing
  import opened Words
  import opened Arithmetic
  import Ast

  /** First byte after the process-image area. */
  const FIRST_OFFSET: nat := 0x100

  datatype VarLayout = VarLayout(name: string, offset: nat, size: nat)

  /** What registration has produced so far. */
  datatype Scope = Scope(symbols: Symbols, layout: seq<VarLayout>, nextOffset: nat)

  const EMPTY_SCOPE := Scope(map[], [], FIRST_OFFSET)

  datatype TypedProgram = TypedProgram(scope: Scope, body: seq<Statement>)

  /** `x & !m`: the bits of `x` outside the mask `m`. */
  function AndNot(x: nat, m: nat): (r: nat)
    ensures x - m <= r <= x
  {
    if x == 0 then 0
    else 2 * AndNot(x / 2, m / 2) + if x % 2 == 1 && m % 2 == 0 then 1 else 0
  }

  function Align(offset: nat, alignment: nat): (r: nat)
    requires alignment >= 1
    ensures offset <= r < offset + alignment
  {
    AndNot(offset + alignment - 1, alignment - 1)
  }

  /** Allocation pointer and sizes are 64-bit unsigned numbers; in a release build their arithmetic wraps around. */
  const USIZE: nat := 0x1_0000_0000_0000_0000

  /** The entry of the next variable: its offset is the pointer rounded up to the alignment, min(size, 8). */
  function Entry(s: Scope, d: Ast.VarDecl): (e: VarLayout)
    ensures e.size < USIZE
  {
    var size := d.ty.SizeBytes() % USIZE;
    var mask := (Min(size, 8) + USIZE - 1) % USIZE;
    VarLayout(d.name, AndNot((s.nextOffset + mask) % USIZE, mask), size)
  }

  function Register(s: Scope, d: Ast.VarDecl): (r: Scope)
    ensures r.nextOffset < USIZE
  {
    var e := Entry(s, d);
    Scope(s.symbols[d.name := SymbolInfo(d.ty, e.offset, e.size)], s.layout + [e], (e.offset + e.size) % USIZE)
  }

  function RegisterAll(s: Scope, ds: seq<Ast.VarDecl>): Scope
  {
    if ds == [] then s else Register(RegisterAll(s, ds[..|ds| - 1]), ds[|ds| - 1])
  }

  /** Where the allocation pointer would be without wrap-around. */
  function Extent(offset: nat, ds: seq<Ast.VarDecl>): nat
    requires Sized(ds)
  {
    if ds == [] then offset else
    var d := ds[|ds| - 1];
    Align(Extent(offset, ds[..|ds| - 1]), Min(d.ty.SizeBytes(), 8)) + d.ty.SizeBytes()
  }

  predicate WellBounded(ds: seq<Ast.VarDecl>)
  {
    forall d <- ds :: d.ty.WellBounded()
  }

  predicate Sized(ds: seq<Ast.VarDecl>)
  {
    forall d <- ds :: d.ty.SizeBytes() >= 1
  }

  /** Every variable has at least one byte, and all of them with their padding end below 2^64. */
  predicate FitsUsize(ds: seq<Ast.VarDecl>)
  {
    Sized(ds) && Extent(FIRST_OFFSET, ds) < USIZE
  }

  function Flatten(blocks: seq<seq<Ast.VarDecl>>): seq<Ast.VarDecl>
  {
    if blocks == [] then [] else Flatten(blocks[..|blocks| - 1]) + blocks[|blocks| - 1]
  }

  // ---- Soundness of the layout -------------------------------------------

  /** Entries are in increasing order without overlap, above the process image, aligned if their
      size is a machine size, and every symbol is one of them. */
  ghost predicate Sound(s: Scope)
  {
    && (forall i :: 0 <= i < |s.layout| ==>
          var e := s.layout[i];
          && e.size >= 1 && FIRST_OFFSET <= e.offset && e.offset + e.size <= s.nextOffset
          && (e.size in {1, 2, 4, 8} ==> e.offset % e.size == 0))
    && (forall i, j :: 0 <= i < j < |s.layout| ==> s.layout[i].offset + s.layout[i].size <= s.layout[j].offset)
    && (forall x <- s.symbols ::
          var info := s.symbols[x];
          info.ty.WellBounded() && info.size == info.ty.SizeBytes() && VarLayout(x, info.offset, info.size) in s.layout)
    && FIRST_OFFSET <= s.nextOffset
  }

  /** Clearing one more low bit doubles the alignment. */
  lemma ClearLowBit(x: nat, m: nat)
    ensures AndNot(x, 2 * m + 1) == 2 * AndNot(x / 2, m)
  {
    Halve(m);
    if x == 0 {
      assert x / 2 == 0 && AndNot(x / 2, m) == 0;
    } else {
      var mask := 2 * m + 1;
      assert AndNot(x, mask) == 2 * AndNot(x / 2, mask / 2) + 0;
    }
  }

  lemma Halve(m: nat)
    ensures (2 * m + 1) / 2 == m && (2 * m + 1) % 2 == 1
  {}

  lemma {:induction false} ClearLowBits(x: nat, k: nat)
    requires k <= 3
    ensures AndNot(x, Pow2(k) - 1) % Pow2(k) == 0
  {
    if k > 0 {
      ClearLowBits(x / 2, k - 1);
      ClearLowBit(x, Pow2(k - 1) - 1);
      DoubleDivides(AndNot(x / 2, Pow2(k - 1) - 1), Pow2(k - 1));
    }
  }

  lemma DoubleDivides(a: nat, p: nat)
    requires p in {1, 2, 4} && a % p == 0
    ensures 2 * a % (2 * p) == 0
  {}

  /** The next offset is not below the last one, and aligned if the size is a machine size. */
  lemma NextOffset(offset: nat, size: nat)
    requires size >= 1
    ensures offset <= Align(offset, Min(size, 8))
    ensures size in {1, 2, 4, 8} ==> Align(offset, Min(size, 8)) % size == 0
  {
    var bumped := offset + Min(size, 8) - 1;
    ClearLowBits(bumped, 1);
    ClearLowBits(bumped, 2);
    ClearLowBits(bumped, 3);
    assert Pow2(1) == 2 && Pow2(2) == 4 && Pow2(3) == 8;
    hide AndNot, Pow2;
  }

  /** Within 64 bits the entry is the one of unbounded numbers. */
  lemma EntryFits(s: Scope, d: Ast.VarDecl)
    requires 1 <= d.ty.SizeBytes() < USIZE && s.nextOffset + Min(d.ty.SizeBytes(), 8) - 1 < USIZE
    ensures Entry(s, d) == VarLayout(d.name, Align(s.nextOffset, Min(d.ty.SizeBytes(), 8)), d.ty.SizeBytes())
  {
    hide AndNot;
  }

  lemma MaskOf(size: nat)
    requires 1 <= size < USIZE
    ensures size % USIZE == size && (Min(size, 8) + USIZE - 1) % USIZE == Min(size, 8) - 1
  {}

  lemma WrapsOnce(x: nat)
    requires USIZE <= x < USIZE + 8
    ensures x % USIZE == x - USIZE
  {}

  /** An alignment beyond 64 bits wraps around to the lowest bytes. */
  lemma EntryWraps(s: Scope, d: Ast.VarDecl)
    requires 1 <= d.ty.SizeBytes() < USIZE && s.nextOffset < USIZE <= s.nextOffset + Min(d.ty.SizeBytes(), 8) - 1
    ensures Entry(s, d).offset < FIRST_OFFSET
  {
    hide AndNot, DataType.SizeBytes;
    MaskOf(d.ty.SizeBytes());
    WrapsOnce(s.nextOffset + Min(d.ty.SizeBytes(), 8) - 1);
  }

  lemma EntrySize(s: Scope, d: Ast.VarDecl)
    ensures var e := Entry(s, d);
            && e.name == d.name && (d.ty.SizeBytes() == 0 ==> e.size == 0)
            && (e.size == d.ty.SizeBytes() <==> d.ty.SizeBytes() < USIZE)
  {
    hide AndNot;
  }

  lemma RegisterIsSound(s: Scope, d: Ast.VarDecl)
    requires Sound(s) && d.ty.WellBounded() && d.ty.SizeBytes() >= 1
    requires Align(s.nextOffset, Min(d.ty.SizeBytes(), 8)) + d.ty.SizeBytes() < USIZE
    ensures Sound(Register(s, d))
    ensures Register(s, d).nextOffset == Align(s.nextOffset, Min(d.ty.SizeBytes(), 8)) + d.ty.SizeBytes()
  {
    hide Align, AndNot;
    var size := d.ty.SizeBytes();
    NextOffset(s.nextOffset, size);
    EntryFits(s, d);
    EntryAdded(s, d.name, SymbolInfo(d.ty, Entry(s, d).offset, size));
  }

  /** A variable is placed at the first free offset of its alignment, and what follows it directly behind. */
  lemma EntryIsTight(s: Scope, d: Ast.VarDecl)
    requires d.ty.SizeBytes() >= 1 && s.nextOffset + 7 + d.ty.SizeBytes() < USIZE
    ensures var e, size := Entry(s, d), d.ty.SizeBytes();
            && e.name == d.name && e.size == size
            && Register(s, d) == Scope(s.symbols[d.name := SymbolInfo(d.ty, e.offset, size)], s.layout + [e], e.offset + size)
            && s.nextOffset <= e.offset < s.nextOffset + (if size < 8 then size else 8)
            && (size in {1, 2, 4, 8} ==> e.offset % size == 0)
  {
    hide Entry, AndNot, Align, DataType.SizeBytes;
    EntryFits(s, d);
    NextOffset(s.nextOffset, d.ty.SizeBytes());
    SmallMod(Entry(s, d).offset + Entry(s, d).size);
  }

  lemma SmallMod(x: nat)
    requires x < USIZE
    ensures x % USIZE == x
  {}

  lemma EntryAdded(s: Scope, x: string, info: SymbolInfo)
    requires Sound(s) && info.ty.WellBounded() && info.size == info.ty.SizeBytes() >= 1 && s.nextOffset <= info.offset
    requires info.size in {1, 2, 4, 8} ==> info.offset % info.size == 0
    ensures Sound(Scope(s.symbols[x := info], s.layout + [VarLayout(x, info.offset, info.size)], info.offset + info.size))
  {
    var s' := Scope(s.symbols[x := info], s.layout + [VarLayout(x, info.offset, info.size)], info.offset + info.size);
    forall y <- s'.symbols
      ensures VarLayout(y, s'.symbols[y].offset, s'.symbols[y].size) in s'.layout
    {
      assert s'.layout[|s.layout|].name == x;
    }
  }

  lemma {:induction false} FitsIsSound(ds: seq<Ast.VarDecl>)
    requires WellBounded(ds) && FitsUsize(ds)
    ensures Sound(RegisterAll(EMPTY_SCOPE, ds)) && RegisterAll(EMPTY_SCOPE, ds).nextOffset == Extent(FIRST_OFFSET, ds)
  {
    hide Sound;
    if ds == [] {
      EmptyIsSound();
    } else {
      FitsIsSound(ds[..|ds| - 1]);
      RegisterIsSound(RegisterAll(EMPTY_SCOPE, ds[..|ds| - 1]), ds[|ds| - 1]);
    }
  }

  lemma EmptyIsSound()
    ensures Sound(EMPTY_SCOPE)
  {}

  lemma {:induction false} EntriesStay(ds: seq<Ast.VarDecl>, i: nat)
    requires i < |ds|
    ensures var layout := RegisterAll(EMPTY_SCOPE, ds).layout;
            |layout| == |ds| && layout[i] == Entry(RegisterAll(EMPTY_SCOPE, ds[..i]), ds[i])
  {
    hide Entry;
    var before := ds[..|ds| - 1];
    if i < |ds| - 1 {
      EntriesStay(before, i);
      assert before[..i] == ds[..i];
    } else if before != [] {
      EntriesStay(before, 0);
    }
  }

  /** The first declaration that does not fit. */
  lemma {:induction false} FirstMisfit(ds: seq<Ast.VarDecl>) returns (i: nat)
    requires !FitsUsize(ds)
    ensures i < |ds| && FitsUsize(ds[..i]) && !FitsUsize(ds[..i + 1])
  {
    var before := ds[..|ds| - 1];
    if FitsUsize(before) {
      i := |ds| - 1;
      assert ds[..i + 1] == ds;
    } else {
      i := FirstMisfit(before);
      assert before[..i] == ds[..i] && before[..i + 1] == ds[..i + 1];
    }
  }

  /** Its entry has the wrong size, lies in the process image, or reaches beyond every 64-bit number. */
  lemma MisfitIsBad(ds: seq<Ast.VarDecl>, s: Scope)
    requires ds != [] && FitsUsize(ds[..|ds| - 1]) && !FitsUsize(ds)
    requires s.nextOffset == Extent(FIRST_OFFSET, ds[..|ds| - 1])
    ensures var d := ds[|ds| - 1];
            var e := Entry(s, d);
            e.size == 0 || e.size != d.ty.SizeBytes() || e.offset < FIRST_OFFSET || e.offset + e.size >= USIZE
  {
    hide Entry, AndNot;
    var d := ds[|ds| - 1];
    var size := d.ty.SizeBytes();
    EntrySize(s, d);
    if 1 <= size < USIZE {
      if s.nextOffset + Min(size, 8) - 1 < USIZE { EntryFits(s, d); } else { EntryWraps(s, d); }
    }
    assert size >= 1 ==> Sized(ds);
  }

  /** The layout is sound and every declaration has an entry of its own with all its bytes. */
  ghost predicate Laid(s: Scope, ds: seq<Ast.VarDecl>)
  {
    && Sound(s) && |s.layout| == |ds|
    && forall i :: 0 <= i < |ds| ==> s.layout[i].name == ds[i].name && s.layout[i].size == ds[i].ty.SizeBytes()
  }

  lemma FitsIsLaid(ds: seq<Ast.VarDecl>)
    requires WellBounded(ds) && FitsUsize(ds)
    ensures Laid(RegisterAll(EMPTY_SCOPE, ds), ds)
  {
    hide Entry, Sound, Extent;
    FitsIsSound(ds);
    forall i | 0 <= i < |ds|
      ensures |RegisterAll(EMPTY_SCOPE, ds).layout| == |ds|
      ensures var e := RegisterAll(EMPTY_SCOPE, ds).layout[i]; e.name == ds[i].name && e.size == ds[i].ty.SizeBytes()
    {
      EntriesStay(ds, i);
      SizeOfEntry(ds, i);
    }
  }

  /** Declarations are laid out soundly if and only if each has at least one byte and together they end below 2^64. */
  lemma LayoutIsSoundIff(ds: seq<Ast.VarDecl>)
    requires WellBounded(ds)
    ensures Laid(RegisterAll(EMPTY_SCOPE, ds), ds) <==> FitsUsize(ds)
  {
    hide Entry, Extent, FitsUsize;
    if FitsUsize(ds) {
      FitsIsLaid(ds);
    } else {
      var i := FirstMisfit(ds);
      assert ds[..i + 1][..i] == ds[..i];
      FitsIsSound(ds[..i]);
      MisfitIsBad(ds[..i + 1], RegisterAll(EMPTY_SCOPE, ds[..i]));
      EntriesStay(ds, i);
    }
  }

  lemma SizeOfEntry(ds: seq<Ast.VarDecl>, i: nat)
    requires FitsUsize(ds) && i < |ds|
    ensures ds[i].ty.SizeBytes() < USIZE
    ensures var e := Entry(RegisterAll(EMPTY_SCOPE, ds[..i]), ds[i]); e.name == ds[i].name && e.size == ds[i].ty.SizeBytes()
  {
    hide Entry, Extent;
    EntrySize(RegisterAll(EMPTY_SCOPE, ds[..i]), ds[i]);
    SizesBelow(ds, i);
  }

  lemma {:induction false} SizesBelow(ds: seq<Ast.VarDecl>, i: nat)
    requires Sized(ds) && i < |ds|
    ensures ds[i].ty.SizeBytes() <= Extent(FIRST_OFFSET, ds)
  {
    if i < |ds| - 1 {
      SizesBelow(ds[..|ds| - 1], i);
    }
  }

  /** VAR a : ARRAY[2..0] OF BOOL; b : BOOL; END_VAR */
  const DESCENDING: seq<Ast.VarDecl> := [Ast.VarDecl("a", Array(2, 0, Bool)), Ast.VarDecl("b", Bool)]

  /** The array takes 2^64 - 1 bytes, so the pointer wraps around and `b` is placed in the process image. */
  lemma DescendingBoundsInput()
    ensures WellBounded(DESCENDING) && !FitsUsize(DESCENDING)
    ensures RegisterAll(EMPTY_SCOPE, DESCENDING).symbols["b"].offset == 0xFF < FIRST_OFFSET
  {
    var a, b := DESCENDING[0], DESCENDING[1];
    assert DESCENDING[..1] == [a] && [a][..0] == [] && DESCENDING[..|DESCENDING| - 1] == [a];
    ArraySize();
    hide AndNot, Align;
    FirstWraps(a);
    var s := Register(EMPTY_SCOPE, a);
    assert RegisterAll(EMPTY_SCOPE, [a]) == s;
    EntryFits(s, b);
    assert Align(0xFF, 1) == 0xFF;
    if Sized(DESCENDING) {
      assert Extent(FIRST_OFFSET, [a]) >= USIZE;
    }
  }

  lemma ArraySize()
    ensures Array(2, 0, Bool).SizeBytes() == USIZE - 1 && Array(2, 0, Bool).WellBounded()
  {}

  lemma FirstIsAligned()
    ensures Align(FIRST_OFFSET, 8) == FIRST_OFFSET
  {
    ClearLowBits(0x107, 3);
    assert Pow2(3) == 8;
  }

  lemma FirstWraps(d: Ast.VarDecl)
    requires d.ty.SizeBytes() == USIZE - 1
    ensures Register(EMPTY_SCOPE, d).nextOffset == 0xFF
  {
    hide AndNot, Entry, Align;
    EntryFits(EMPTY_SCOPE, d);
    FirstIsAligned();
    assert (FIRST_OFFSET + (USIZE - 1)) % USIZE == 0xFF;
  }

  /** The intervals of two different variables are disjoint and clear of the process image. */
  lemma DistinctVariablesAreDisjoint(s: Scope, x: string, y: string)
    requires Sound(s) && x in s.symbols && y in s.symbols && x != y
    ensures var a, b := s.symbols[x], s.symbols[y];
            && FIRST_OFFSET <= a.offset && a.offset + a.size <= s.nextOffset
            && (a.offset + a.size <= b.offset || b.offset + b.size <= a.offset)
  {
    var a, b := s.symbols[x], s.symbols[y];
    var i :| 0 <= i < |s.layout| && s.layout[i] == VarLayout(x, a.offset, a.size);
    var j :| 0 <= j < |s.layout| && s.layout[j] == VarLayout(y, b.offset, b.size);
    assert i != j;
  }

  lemma {:induction false} RegisterAllAppend(s: Scope, a: seq<Ast.VarDecl>, b: seq<Ast.VarDecl>)
    ensures RegisterAll(s, a + b) == RegisterAll(RegisterAll(s, a), b)
    decreases |b|
  {
    if b == [] {
      assert a + b == a;
    } else {
      var b' := b[..|b| - 1];
      assert (a + b)[..|a + b| - 1] == a + b';
      RegisterAllAppend(s, a, b');
    }
  }

  /** Checking of a whole program. */
  function CheckProgram(p: Ast.Program): (r: Result<TypedProgram>)
  {
    var scope := RegisterAll(EMPTY_SCOPE, Flatten(p.variables));
    var body :- CheckStatements(scope.symbols, p.body);
    Success(TypedProgram(scope, body))
  }

  /** A program that passes the checker has a body that is the typing of the program text, and a sound layout exactly
      if its variables fit. */
  lemma CheckedProgram(p: Ast.Program)
    requires WellBounded(Flatten(p.variables))
    ensures var r := CheckProgram(p);
            r.Success? ==>
              && WellTypedStatements(r.value.scope.symbols, r.value.body) && ErasedAll(r.value.body) == BareAll(p.body)
              && (Laid(r.value.scope, Flatten(p.variables)) <==> FitsUsize(Flatten(p.variables)))
  {
    LayoutIsSoundIff(Flatten(p.variables));
    if CheckProgram(p).Success? {
      CheckAllExact(RegisterAll(EMPTY_SCOPE, Flatten(p.variables)).symbols, p.body, CheckProgram(p).value.body);
    }
  }

  /** The checker's mutable state: the current scope's symbol table and the allocation pointer. */
  class Checker {
    var symbols: Symbols
    var layout: seq<VarLayout>
    var nextOffset: nat

    function Current(): Scope
      reads this
    {
      Scope(symbols, layout, nextOffset)
    }

    constructor ()
      ensures Current() == EMPTY_SCOPE
    {
      symbols, layout, nextOffset := map[], [], FIRST_OFFSET;
    }

    method RegisterVariable(d: Ast.VarDecl)
      modifies this
      ensures Current() == Register(old(Current()), d)
    {
      var size := d.ty.SizeBytes() % USIZE;
      var mask := (Min(size, 8) + USIZE - 1) % USIZE;
      nextOffset := AndNot((nextOffset + mask) % USIZE, mask);
      layout := layout + [VarLayout(d.name, nextOffset, size)];
      symbols := symbols[d.name := SymbolInfo(d.ty, nextOffset, size)];
      nextOffset := (nextOffset + size) % USIZE;
    }

    method RegisterVarBlock(ds: seq<Ast.VarDecl>)
      modifies this
      ensures Current() == RegisterAll(old(Current()), ds)
    {
      for i := 0 to |ds|
        invariant Current() == RegisterAll(old(Current()), ds[..i])
      {
        RegisterVariable(ds[i]);
        assert ds[..i + 1][..i] == ds[..i];
      }
      assert ds[..|ds|] == ds;
    }

    method Check(p: Ast.Program) returns (r: Result<TypedProgram>)
      modifies this
      ensures r == CheckProgram(p)
    {
      symbols, layout, nextOffset := map[], [], FIRST_OFFSET;
      for i := 0 to |p.variables|
        invariant Current() == RegisterAll(EMPTY_SCOPE, Flatten(p.variables[..i]))
      {
        RegisterVarBlock(p.variables[i]);
        RegisterAllAppend(EMPTY_SCOPE, Flatten(p.variables[..i]), p.variables[i]);
        assert p.variables[..i + 1][..i] == p.variables[..i];
      }
      assert p.variables[..|p.variables|] == p.variables;
      var body :- CheckStatements(symbols, p.body);
      return Success(TypedProgram(Scope(symbols, layout, nextOffset), body));
    }
  }
}
