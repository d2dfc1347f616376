/** The process image of an EtherCAT network: every slave gets an interval of the input and of the output bytes. */
module SlaveLayout {

  /** Bit lengths of the entries of one PDO. */
  type PdoMapping = seq<nat>

  function TotalBits(p: PdoMapping): nat
  {
    if p == [] then 0 else TotalBits(p[..|p| - 1]) + p[|p| - 1]
  }

  function ByteLength(p: PdoMapping): nat { (TotalBits(p) + 7) / 8 }

  function TotalBytes(ps: seq<PdoMapping>): nat
  {
    if ps == [] then 0 else TotalBytes(ps[..|ps| - 1]) + ByteLength(ps[|ps| - 1])
  }

  datatype Slave = Slave(txPdos: seq<PdoMapping>, rxPdos: seq<PdoMapping>,
                         inputOffset: nat, inputSize: nat, outputOffset: nat, outputSize: nat)

  /** Slaves by ring position. */
  type Slaves = map<nat, Slave>

  // ---- The layout --------------------------------------------------------------------

  function SizeAt(slaves: Slaves, p: nat, input: bool): nat
  {
    if p !in slaves then 0 else TotalBytes(if input then slaves[p].txPdos else slaves[p].rxPdos)
  }

  /** Bytes needed by the slaves at positions below `p`. */
  function Below(slaves: Slaves, p: nat, input: bool): nat
  {
    if p == 0 then 0 else Below(slaves, p - 1, input) + SizeAt(slaves, p - 1, input)
  }

  function Placed(slaves: Slaves, p: nat): Slave
    requires p in slaves
  {
    slaves[p].(inputOffset := Below(slaves, p, true), inputSize := SizeAt(slaves, p, true),
               outputOffset := Below(slaves, p, false), outputSize := SizeAt(slaves, p, false))
  }

  /** Every slave behind those at lower positions. */
  function Laid(slaves: Slaves): Slaves
  {
    map p | p in slaves :: Placed(slaves, p)
  }

  function OffsetOf(s: Slave, input: bool): nat { if input then s.inputOffset else s.outputOffset }

  function SizeOf(s: Slave, input: bool): nat { if input then s.inputSize else s.outputSize }

  /** Byte `b` of the image belongs to the slave at position `p`. */
  predicate Owns(slaves: Slaves, p: nat, b: nat, input: bool)
  {
    p in slaves && OffsetOf(slaves[p], input) <= b < OffsetOf(slaves[p], input) + SizeOf(slaves[p], input)
  }

  predicate PositionsBelow(slaves: Slaves, bound: nat)
  {
    forall p <- slaves :: p < bound
  }

  lemma {:induction false} BelowMonotone(slaves: Slaves, p: nat, q: nat, input: bool)
    requires p <= q
    ensures Below(slaves, p, input) <= Below(slaves, q, input)
    ensures p < q ==> Below(slaves, p, input) + SizeAt(slaves, p, input) <= Below(slaves, q, input)
    decreases q
  {
    if p < q { BelowMonotone(slaves, p, q - 1, input); }
  }

  lemma {:induction false} SomeOwner(slaves: Slaves, bound: nat, b: nat, input: bool)
    requires b < Below(slaves, bound, input)
    ensures exists p: nat :: p < bound && Owns(Laid(slaves), p, b, input)
  {
    if b < Below(slaves, bound - 1, input) {
      SomeOwner(slaves, bound - 1, b, input);
      var p: nat :| p < bound - 1 && Owns(Laid(slaves), p, b, input);
      assert p < bound && Owns(Laid(slaves), p, b, input);
    } else {
      assert Owns(Laid(slaves), bound - 1, b, input);
    }
  }

  /** Every byte below the total belongs to exactly one slave, and no byte from the total on to any. */
  lemma BytesArePartitioned(slaves: Slaves, bound: nat, b: nat, input: bool)
    requires PositionsBelow(slaves, bound)
    ensures (exists p :: Owns(Laid(slaves), p, b, input)) <==> b < Below(slaves, bound, input)
    ensures forall p, q :: Owns(Laid(slaves), p, b, input) && Owns(Laid(slaves), q, b, input) ==> p == q
  {
    if b < Below(slaves, bound, input) {
      SomeOwner(slaves, bound, b, input);
      var p: nat :| p < bound && Owns(Laid(slaves), p, b, input);
      assert Owns(Laid(slaves), p, b, input);
    }
    forall p | Owns(Laid(slaves), p, b, input)
      ensures b < Below(slaves, bound, input)
    {
      BelowMonotone(slaves, p, bound, input);
    }
    forall p, q | Owns(Laid(slaves), p, b, input) && Owns(Laid(slaves), q, b, input)
      ensures p == q
    {
      if p < q { BelowMonotone(slaves, p, q, input); }
      if q < p { BelowMonotone(slaves, q, p, input); }
    }
  }

  // ---- Where the bits are --------------------------------------------------------------

  /** The bytes of a PDO are the least number that holds its bits. */
  lemma BytesHoldBits(p: PdoMapping)
    ensures TotalBits(p) <= 8 * ByteLength(p) < TotalBits(p) + 8
  {}

  /** Entry `j` of a PDO has its own bits, behind those of the entries before, within the PDO. */
  lemma {:induction false} EntryBits(p: PdoMapping, j: nat)
    requires j < |p|
    ensures TotalBits(p[..j]) + p[j] == TotalBits(p[..j + 1]) <= TotalBits(p)
  {
    if j == |p| - 1 {
      assert p[..j + 1] == p;
    } else {
      var before := p[..|p| - 1];
      assert before[..j] == p[..j] && before[..j + 1] == p[..j + 1];
      EntryBits(before, j);
    }
  }

  lemma {:induction false} PdoBytes(ps: seq<PdoMapping>, k: nat)
    requires k < |ps|
    ensures TotalBytes(ps[..k]) + ByteLength(ps[k]) == TotalBytes(ps[..k + 1]) <= TotalBytes(ps)
  {
    if k == |ps| - 1 {
      assert ps[..k + 1] == ps;
    } else {
      var before := ps[..|ps| - 1];
      assert before[..k] == ps[..k] && before[..k + 1] == ps[..k + 1];
      PdoBytes(before, k);
    }
  }

  /** In the laid-out network PDO `k` of a slave has its own run of bytes, directly behind the PDOs before it and within
      the slave's interval - input PDOs in the input image, output PDOs in the output image - with room for all its
      bits and less than a byte to spare; the last run ends with the interval. */
  lemma PdosFit(slaves: Slaves, p: nat, k: nat, input: bool)
    requires p in slaves && k < |if input then slaves[p].txPdos else slaves[p].rxPdos|
    ensures var s := Laid(slaves)[p];
            var pdos := if input then s.txPdos else s.rxPdos;
            var offset, size := if input then s.inputOffset else s.outputOffset, if input then s.inputSize else s.outputSize;
            var begin, end := offset + TotalBytes(pdos[..k]), offset + TotalBytes(pdos[..k + 1]);
            && pdos == (if input then slaves[p].txPdos else slaves[p].rxPdos)
            && begin <= end <= offset + size && TotalBits(pdos[k]) <= 8 * (end - begin) < TotalBits(pdos[k]) + 8
            && (k + 1 == |pdos| ==> end == offset + size)
  {
    var pdos := if input then slaves[p].txPdos else slaves[p].rxPdos;
    PdoBytes(pdos, k);
    BytesHoldBits(pdos[k]);
    if k + 1 == |pdos| { assert pdos[..k + 1] == pdos; }
  }

  /** A slave without PDOs in a direction has no bytes there. */
  lemma NoPdosNoBytes(slaves: Slaves, p: nat)
    requires p in slaves
    ensures slaves[p].txPdos == [] ==> Laid(slaves)[p].inputSize == 0
    ensures slaves[p].rxPdos == [] ==> Laid(slaves)[p].outputSize == 0
  {}

  /** Slaves lie in the order of their positions. */
  lemma PositionsInOrder(slaves: Slaves, p: nat, q: nat)
    requires p in slaves && q in slaves && p < q
    ensures var a, b := Laid(slaves)[p], Laid(slaves)[q];
            a.inputOffset + a.inputSize <= b.inputOffset && a.outputOffset + a.outputSize <= b.outputOffset
  {
    BelowMonotone(slaves, p, q, true);
    BelowMonotone(slaves, p, q, false);
  }

  // ---- Operations --------------------------------------------------------------------

  datatype Operation = AddSlave(position: nat, slave: Slave) | Clear

  /** The slaves as they were added, without regard to the layout. */
  function Content(ops: seq<Operation>): Slaves
  {
    if ops == [] then map[]
    else match ops[|ops| - 1]
      case AddSlave(p, s) => Content(ops[..|ops| - 1])[p := s]
      case Clear => map[]
  }

  /** The network after the operations: each addition recalculates the layout of what is there. */
  function Network(ops: seq<Operation>): Slaves
  {
    if ops == [] then map[]
    else match ops[|ops| - 1]
      case AddSlave(p, s) => Laid(Network(ops[..|ops| - 1])[p := s])
      case Clear => map[]
  }

  /** The same slaves up to their place in the image. */
  ghost predicate Alike(a: Slaves, b: Slaves)
  {
    a.Keys == b.Keys && forall p <- a :: a[p].txPdos == b[p].txPdos && a[p].rxPdos == b[p].rxPdos
  }

  lemma {:induction false} BelowAlike(a: Slaves, b: Slaves, p: nat, input: bool)
    requires Alike(a, b)
    ensures Below(a, p, input) == Below(b, p, input) && SizeAt(a, p, input) == SizeAt(b, p, input)
  {
    if p > 0 { BelowAlike(a, b, p - 1, input); }
  }

  /** The layout does not depend on the offsets stored before. */
  lemma LaidAlike(a: Slaves, b: Slaves)
    requires Alike(a, b)
    ensures Laid(a) == Laid(b)
  {
    forall p <- a
      ensures Laid(a)[p] == Laid(b)[p]
    {
      BelowAlike(a, b, p, true);
      BelowAlike(a, b, p, false);
    }
  }

  /** After any operations the network is the layout of its content; so two histories with the same content have
      the same layout, in whatever order the slaves were added. */
  lemma {:induction false} LayoutIsOrderIndependent(ops: seq<Operation>)
    ensures Network(ops) == Laid(Content(ops)) && Alike(Network(ops), Content(ops))
  {
    if ops != [] && ops[|ops| - 1].AddSlave? {
      var init, x := ops[..|ops| - 1], ops[|ops| - 1];
      LayoutIsOrderIndependent(init);
      LaidAlike(Network(init)[x.position := x.slave], Content(init)[x.position := x.slave]);
    }
  }

  // ---- The network configuration -------------------------------------------------------

  predicate Increasing(s: seq<nat>)
  {
    forall i, j :: 0 <= i < j < |s| ==> s[i] < s[j]
  }

  method InsertPosition(s: seq<nat>, x: nat) returns (r: seq<nat>)
    requires Increasing(s) && x !in s
    ensures Increasing(r) && forall y :: y in r <==> y == x || y in s
  {
    var i := 0;
    while i < |s| && s[i] < x
      invariant i <= |s| && forall k :: 0 <= k < i ==> s[k] < x
    {
      i := i + 1;
    }
    r := s[..i] + [x] + s[i..];
    assert forall k :: i <= k < |s| ==> x < s[k];
  }

  /** The positions of the slaves, which the map yields in any order, sorted. */
  method SortedPositions(slaves: Slaves) returns (positions: seq<nat>)
    ensures Increasing(positions) && forall p :: p in positions <==> p in slaves
  {
    positions := [];
    var left := slaves.Keys;
    while left != {}
      invariant Increasing(positions) && left <= slaves.Keys
      invariant forall p :: p in positions <==> p in slaves && p !in left
      decreases |left|
    {
      var p :| p in left;
      positions := InsertPosition(positions, p);
      left := left - {p};
    }
  }

  /** Between neighbouring positions there are no slaves and so no bytes. */
  lemma {:induction false} NothingBetween(slaves: Slaves, p: nat, q: nat, input: bool)
    requires p <= q && forall k :: p <= k < q ==> k !in slaves
    ensures Below(slaves, q, input) == Below(slaves, p, input)
  {
    if p < q { NothingBetween(slaves, p, q - 1, input); }
  }

  class NetworkConfig {
    var slaves: Slaves
    var totalInputSize: nat
    var totalOutputSize: nat

    /** A laid-out network whose totals cover all slaves. */
    ghost predicate Valid()
      reads this
    {
      && slaves == Laid(slaves)
      && forall bound | PositionsBelow(slaves, bound) ::
           totalInputSize == Below(slaves, bound, true) && totalOutputSize == Below(slaves, bound, false)
    }

    constructor ()
      ensures Valid() && slaves == map[]
    {
      slaves, totalInputSize, totalOutputSize := map[], 0, 0;
      new;
      forall bound: nat
        ensures Below(map[], bound, true) == 0 == Below(map[], bound, false)
      {
        NothingBetween(map[], 0, bound, true);
        NothingBetween(map[], 0, bound, false);
      }
    }

    method AddSlave(position: nat, s: Slave)
      modifies this
      ensures Valid() && slaves == Laid(old(slaves)[position := s])
    {
      slaves := slaves[position := s];
      RecalculateOffsets();
    }

    method RecalculateOffsets()
      modifies this
      ensures Valid() && slaves == Laid(old(slaves))
    {
      ghost var given := slaves;
      var inputOffset, outputOffset := 0, 0;
      var positions := SortedPositions(slaves);
      Begins(given, positions, true);
      Begins(given, positions, false);
      assert LaidUpTo(slaves, given, positions, 0);
      hide LaidUpTo, OffsetsAt, AreThePositions, Placed, TotalBytes, Below, SizeAt;
      for i := 0 to |positions|
        invariant LaidUpTo(slaves, given, positions, i)
        invariant OffsetsAt(given, positions, i, inputOffset, true) && OffsetsAt(given, positions, i, outputOffset, false)
      {
        var p := positions[i];
        ArePositions(slaves, given, positions, i);
        NextLaid(slaves, given, positions, i, inputOffset, outputOffset);
        Advances(given, positions, i, inputOffset, true);
        Advances(given, positions, i, outputOffset, false);
        var inputSize, outputSize := TotalBytes(slaves[p].txPdos), TotalBytes(slaves[p].rxPdos);
        slaves := slaves[p := slaves[p].(inputOffset := inputOffset, inputSize := inputSize,
                                         outputOffset := outputOffset, outputSize := outputSize)];
        inputOffset := inputOffset + inputSize;
        outputOffset := outputOffset + outputSize;
      }
      AllLaid(slaves, given, positions);
      totalInputSize := inputOffset;
      totalOutputSize := outputOffset;
      TotalsKept(slaves, given, positions, inputOffset, true);
      TotalsKept(slaves, given, positions, outputOffset, false);
    }

    method Clear()
      modifies this
      ensures Valid() && slaves == map[]
    {
      slaves, totalInputSize, totalOutputSize := map[], 0, 0;
      forall bound: nat
        ensures Below(map[], bound, true) == 0 == Below(map[], bound, false)
      {
        NothingBetween(map[], 0, bound, true);
        NothingBetween(map[], 0, bound, false);
      }
    }
  }

  ghost predicate AreThePositions(slaves: Slaves, positions: seq<nat>)
  {
    Increasing(positions) && forall p :: p in positions <==> p in slaves
  }

  /** The slaves at the first `i` positions have their places; the others are as given. */
  ghost predicate LaidUpTo(slaves: Slaves, given: Slaves, positions: seq<nat>, i: nat)
  {
    && AreThePositions(given, positions) && slaves.Keys == given.Keys && i <= |positions|
    && (forall k :: 0 <= k < i ==> positions[k] in given && slaves[positions[k]] == Placed(given, positions[k]))
    && (forall k :: i <= k < |positions| ==> positions[k] in given && slaves[positions[k]] == given[positions[k]])
  }

  /** The offset reached before slave `i`; behind the last slave, the total. */
  ghost predicate OffsetsAt(slaves: Slaves, positions: seq<nat>, i: nat, offset: nat, input: bool)
    requires i <= |positions|
  {
    if i < |positions| then offset == Below(slaves, positions[i], input)
    else forall bound | PositionsBelow(slaves, bound) :: offset == Below(slaves, bound, input)
  }

  lemma ArePositions(slaves: Slaves, given: Slaves, positions: seq<nat>, i: nat)
    requires LaidUpTo(slaves, given, positions, i)
    ensures AreThePositions(given, positions)
  {}

  lemma NextLaid(slaves: Slaves, given: Slaves, positions: seq<nat>, i: nat, inputOffset: nat, outputOffset: nat)
    requires LaidUpTo(slaves, given, positions, i) && i < |positions|
    requires OffsetsAt(given, positions, i, inputOffset, true) && OffsetsAt(given, positions, i, outputOffset, false)
    ensures positions[i] in slaves && positions[i] in given
    ensures var p := positions[i];
            var s := slaves[p].(inputOffset := inputOffset, inputSize := TotalBytes(slaves[p].txPdos),
                                outputOffset := outputOffset, outputSize := TotalBytes(slaves[p].rxPdos));
            && LaidUpTo(slaves[p := s], given, positions, i + 1)
            && TotalBytes(slaves[p].txPdos) == SizeAt(given, p, true) && TotalBytes(slaves[p].rxPdos) == SizeAt(given, p, false)
  {
    hide Below, TotalBytes;
  }

  lemma AllLaid(slaves: Slaves, given: Slaves, positions: seq<nat>)
    requires LaidUpTo(slaves, given, positions, |positions|)
    ensures slaves == Laid(given) && Alike(slaves, given)
  {
    forall p <- given
      ensures slaves[p] == Placed(given, p)
    {
      assert p in positions;
    }
  }

  /** The totals found for the given slaves are those of the laid-out ones. */
  lemma TotalsKept(slaves: Slaves, given: Slaves, positions: seq<nat>, total: nat, input: bool)
    requires slaves == Laid(given) && Alike(slaves, given) && OffsetsAt(given, positions, |positions|, total, input)
    ensures slaves == Laid(slaves)
    ensures forall bound | PositionsBelow(slaves, bound) :: total == Below(slaves, bound, input)
  {
    LaidAlike(slaves, given);
    forall bound | PositionsBelow(slaves, bound)
      ensures total == Below(slaves, bound, input)
    {
      assert PositionsBelow(given, bound);
      BelowAlike(slaves, given, bound, input);
    }
  }

  /** The first offset is zero; without slaves the total is. */
  lemma Begins(slaves: Slaves, positions: seq<nat>, input: bool)
    requires AreThePositions(slaves, positions)
    ensures OffsetsAt(slaves, positions, 0, 0, input)
  {
    if positions != [] {
      NothingBetween(slaves, 0, positions[0], input);
    } else {
      forall bound | PositionsBelow(slaves, bound)
        ensures Below(slaves, bound, input) == 0
      {
        NothingBetween(slaves, 0, bound, input);
      }
    }
  }

  /** The offset behind slave `i` is that of slave `i + 1`, or the total. */
  lemma Advances(slaves: Slaves, positions: seq<nat>, i: nat, offset: nat, input: bool)
    requires AreThePositions(slaves, positions) && i < |positions| && OffsetsAt(slaves, positions, i, offset, input)
    ensures OffsetsAt(slaves, positions, i + 1, offset + SizeAt(slaves, positions[i], input), input)
  {
    if i + 1 < |positions| {
      NothingBetween(slaves, positions[i] + 1, positions[i + 1], input);
    } else {
      forall bound | PositionsBelow(slaves, bound)
        ensures Below(slaves, bound, input) == Below(slaves, positions[i], input) + SizeAt(slaves, positions[i], input)
      {
        assert positions[i] in slaves;
        NothingBetween(slaves, positions[i] + 1, bound, input);
      }
    }
  }
}
