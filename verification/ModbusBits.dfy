/** Packing of coils into bytes and words, and the requests that carry them. */
module ModbusBits {
  import opened Wrappers
  import opened Words
  import opened Arithmetic

  /** Bit `i` of `w`. */
  predicate Bit(w: nat, i: nat)
  {
    if i == 0 then w % 2 == 1 else Bit(w / 2, i - 1)
  }

  /** `w | 1 << i` */
  function SetBit(w: nat, i: nat): nat
  {
    if i == 0 then (if w % 2 == 1 then w else w + 1) else 2 * SetBit(w / 2, i - 1) + w % 2
  }

  function FromBits(bits: seq<bool>): (w: nat)
    ensures w < Pow2(|bits|)
  {
    if bits == [] then 0 else (if bits[0] then 1 else 0) + 2 * FromBits(bits[1..])
  }

  function ToBits(w: nat, n: nat): (bits: seq<bool>)
    ensures |bits| == n
  {
    seq(n, (i: nat) => Bit(w, i))
  }

  // ---- Bits and numbers --------------------------------------------------------------

  lemma {:induction false} SetBitSets(w: nat, i: nat, j: nat)
    ensures Bit(SetBit(w, i), j) == (i == j || Bit(w, j))
  {
    if i == 0 {
      if w % 2 == 0 && j > 0 {
        assert (w + 1) / 2 == w / 2;
      }
    } else if j > 0 {
      SetBitSets(w / 2, i - 1, j - 1);
      assert SetBit(w, i) / 2 == SetBit(w / 2, i - 1);
    }
  }

  lemma {:induction false} SetBitBound(w: nat, i: nat, n: nat)
    requires w < Pow2(n) && i < n
    ensures SetBit(w, i) < Pow2(n)
  {
    var p := Pow2(n - 1);
    assert Pow2(n) == 2 * p && w / 2 < p;
    if i > 0 {
      SetBitBound(w / 2, i - 1, n - 1);
      hide Pow2;
      assert SetBit(w, i) == 2 * SetBit(w / 2, i - 1) + w % 2;
    }
  }

  lemma {:induction false} BitOfFromBits(bits: seq<bool>, i: nat)
    ensures Bit(FromBits(bits), i) == (i < |bits| && bits[i])
    decreases i
  {
    if bits == [] {
      NoBits(i);
    } else if i > 0 {
      assert FromBits(bits) / 2 == FromBits(bits[1..]);
      BitOfFromBits(bits[1..], i - 1);
    }
  }

  lemma {:induction false} NoBits(i: nat)
    ensures !Bit(0, i)
  {
    if i > 0 { NoBits(i - 1); }
  }

  /** Bits determine a number below a power of two. */
  lemma {:induction false} FromToBits(w: nat, n: nat)
    ensures FromBits(ToBits(w, n)) == w % Pow2(n)
  {
    if n > 0 {
      assert ToBits(w, n)[1..] == ToBits(w / 2, n - 1);
      FromToBits(w / 2, n - 1);
      HalfMod(w, Pow2(n - 1));
    }
  }

  lemma HalfMod(w: nat, p: nat)
    requires p > 0
    ensures w % (2 * p) == 2 * (w / 2 % p) + w % 2
  {
    var q, r := w / 2 / p, w / 2 % p;
    assert w / 2 == q * p + r;
    assert q * (2 * p) == 2 * (q * p);
    ModUnique(w, 2 * p, q, 2 * r + w % 2);
  }

  lemma SameBits(w: nat, bits: seq<bool>)
    requires w < Pow2(|bits|) && forall i :: 0 <= i < |bits| ==> Bit(w, i) == bits[i]
    ensures w == FromBits(bits)
  {
    assert ToBits(w, |bits|) == bits;
    FromToBits(w, |bits|);
    ModUnique(w, Pow2(|bits|), 0, w);
  }

  // ---- Packing into bytes --------------------------------------------------------------

  function ByteCount(n: nat): nat { (n + 7) / 8 }

  /** The values carried by byte `k`. */
  function Chunk(values: seq<bool>, k: nat): (c: seq<bool>)
    requires k < ByteCount(|values|)
    ensures 0 < |c| <= 8
  {
    values[8 * k..if 8 * k + 8 <= |values| then 8 * k + 8 else |values|]
  }

  /** Value `i` is bit `i % 8` of byte `i / 8`; the bits left over in the last byte are zero. */
  function Packed(values: seq<bool>): (b: seq<Byte>)
    ensures |b| == ByteCount(|values|)
  {
    seq(ByteCount(|values|), (k: nat) requires k < ByteCount(|values|) => PackedByte(values, k))
  }

  function PackedByte(values: seq<bool>, k: nat): Byte
    requires k < ByteCount(|values|)
  {
    Pow2Monotone(|Chunk(values, k)|, 8);
    assert Pow2(8) == 256;
    FromBits(Chunk(values, k))
  }

  lemma {:induction false} Pow2Monotone(a: nat, b: nat)
    requires a <= b
    ensures Pow2(a) <= Pow2(b)
  {
    if a > 0 { Pow2Monotone(a - 1, b - 1); }
  }

  lemma PackedBits(values: seq<bool>, k: nat, j: nat)
    requires k < ByteCount(|values|) && j < 8
    ensures Bit(Packed(values)[k], j) == (8 * k + j < |values| && values[8 * k + j])
  {
    BitOfFromBits(Chunk(values, k), j);
  }

  /** The first `q` bits of a row of bytes. */
  function Unpacked(b: seq<Byte>, q: nat): (bits: seq<bool>)
    requires ByteCount(q) <= |b|
    ensures |bits| == q
  {
    seq(q, (i: nat) requires i < q => Bit(b[i / 8], i % 8))
  }

  lemma UnpackPacked(values: seq<bool>)
    ensures Unpacked(Packed(values), |values|) == values
  {
    forall i | 0 <= i < |values|
      ensures Unpacked(Packed(values), |values|)[i] == values[i]
    {
      PackedBits(values, i / 8, i % 8);
    }
  }

  /** The coils of the output word `w`: a shift by 32 or more uses its amount modulo 32, as release builds do. */
  function OutputBits(w: nat, q: nat): (bits: seq<bool>)
    ensures |bits| == q
  {
    seq(q, (i: nat) => Bit(w, i % 32))
  }

  /** They are the bits of the word exactly if there are at most 32, or if the low bits of the word, which repeat behind
      the highest, are zero. */
  lemma OutputsAreBitsIff(w: nat, q: nat)
    requires w < Pow2(32)
    ensures OutputBits(w, q) == ToBits(w, q) <==> q <= 32 || w % Pow2(Min(q - 32, 32)) == 0
  {
    hide Bit, Pow2;
    if q > 32 {
      var k := Min(q - 32, 32);
      forall i: nat | 32 <= i < q ensures OutputBits(w, q)[i] == Bit(w, i % 32) && !ToBits(w, q)[i] { NoHighBits(w, 32, i); }
      if w % Pow2(k) == 0 {
        forall i | 0 <= i < q ensures OutputBits(w, q)[i] == ToBits(w, q)[i] {
          if i >= 32 {
            RepeatsLow(i, q);
            LowBitOf(w, k, i % 32);
          } else {
            assert i % 32 == i;
          }
        }
      } else {
        if forall i: nat :: i < k ==> !Bit(w, i) { NoLowBits(w, k); }
        var i: nat :| i < k && Bit(w, i);
        assert OutputBits(w, q)[i + 32] && !ToBits(w, q)[i + 32];
      }
    }
  }

  lemma RepeatsLow(i: nat, q: nat)
    requires 32 <= i < q
    ensures i % 32 < Min(q - 32, 32)
  {}

  lemma {:induction false} NoHighBits(w: nat, n: nat, i: nat)
    requires w < Pow2(n) && n <= i
    ensures !Bit(w, i)
    decreases n
  {
    if n == 0 { NoBits(i); } else { NoHighBits(w / 2, n - 1, i - 1); }
  }

  lemma LowBitOf(w: nat, k: nat, i: nat)
    requires w % Pow2(k) == 0 && i < k
    ensures !Bit(w, i)
  {
    FromToBits(w, k);
    BitOfFromBits(ToBits(w, k), i);
    NoBits(i);
  }

  lemma NoLowBits(w: nat, k: nat)
    requires forall i: nat :: i < k ==> !Bit(w, i)
    ensures w % Pow2(k) == 0
  {
    FromToBits(w, k);
    forall i: nat | i < k ensures Bit(0, i) == ToBits(w, k)[i] { NoBits(i); }
    SameBits(0, ToBits(w, k));
  }

  /** Outputs to coils, coils to bytes, bytes to coils, and coils to inputs: the round trip keeps the low `q` bits of the
      word - all of it from 32 coils on - and the padding bits of the last byte are zero. */
  lemma CoilRoundTrip(w: nat, q: nat)
    ensures var coils := Unpacked(Packed(OutputBits(w, q)), q);
            FromBits(coils[..Min(q, 32)]) == w % Pow2(Min(q, 32))
    ensures forall j :: q % 8 <= j < 8 && q % 8 > 0 ==> !Bit(Packed(OutputBits(w, q))[q / 8], j)
  {
    var k := Min(q, 32);
    UnpackPacked(OutputBits(w, q));
    assert OutputBits(w, q)[..k] == ToBits(w, k);
    FromToBits(w, k);
    forall j | q % 8 <= j < 8 && q % 8 > 0
      ensures !Bit(Packed(OutputBits(w, q))[q / 8], j)
    {
      PackedBits(OutputBits(w, q), q / 8, j);
    }
  }

  // ---- The loops of the driver -----------------------------------------------------------

  method UnpackOutputs(digital: nat, quantity: nat) returns (bits: seq<bool>)
    ensures bits == OutputBits(digital, quantity)
  {
    bits := [];
    for i := 0 to quantity
      invariant bits == OutputBits(digital, i)
    {
      bits := bits + [Bit(digital, i % 32)];
    }
  }

  method PackCoils(values: seq<bool>) returns (data: array<Byte>)
    ensures data[..] == Packed(values)
  {
    data := new Byte[ByteCount(|values|)](_ => 0);
    assert forall k, j | 0 <= k < data.Length && 0 <= j < 8 :: !Bit(data[k], j) by {
      forall k, j | 0 <= k < data.Length && 0 <= j < 8 ensures !Bit(data[k], j) { NoBits(j); }
    }
    for i := 0 to |values|
      invariant forall k, j :: 0 <= k < data.Length && 0 <= j < 8 ==>
                  Bit(data[k], j) == (8 * k + j < i && values[8 * k + j])
    {
      if values[i] {
        SetByteBit(data[i / 8], i % 8);
        data[i / 8] := SetBit(data[i / 8], i % 8);
      }
    }
    forall k | 0 <= k < data.Length
      ensures data[k] == Packed(values)[k]
    {
      forall j: nat | j < 8
        ensures Bit(data[k], j) == Bit(Packed(values)[k], j)
      {
        PackedBits(values, k, j);
      }
      SameByte(data[k], Packed(values)[k]);
    }
  }

  lemma SetByteBit(b: Byte, i: nat)
    requires i < 8
    ensures SetBit(b, i) < 256 && forall j: nat :: Bit(SetBit(b, i), j) == (i == j || Bit(b, j))
  {
    assert Pow2(8) == 256;
    SetBitBound(b, i, 8);
    forall j: nat ensures Bit(SetBit(b, i), j) == (i == j || Bit(b, j)) {
      SetBitSets(b, i, j);
    }
  }

  lemma SameByte(a: Byte, b: Byte)
    requires forall j: nat :: j < 8 ==> Bit(a, j) == Bit(b, j)
    ensures a == b
  {
    assert Pow2(8) == 256;
    SameBits(a, ToBits(b, 8));
    SameBits(b, ToBits(b, 8));
  }

  method UnpackCoils(data: seq<Byte>, quantity: nat) returns (bits: seq<bool>)
    requires ByteCount(quantity) <= |data|
    ensures bits == Unpacked(data, quantity)
  {
    bits := [];
    for i := 0 to quantity
      invariant bits == Unpacked(data, i)
    {
      bits := bits + [Bit(data[i / 8], i % 8)];
    }
  }

  /** Only the first 32 coils fit the input word. */
  method PackInputs(bits: seq<bool>) returns (digital: nat)
    ensures digital == FromBits(bits[..Min(|bits|, 32)])
  {
    digital := 0;
    var n := Min(|bits|, 32);
    forall j: nat ensures !Bit(0, j) { NoBits(j); }
    for i := 0 to n
      invariant digital < Pow2(n)
      invariant forall j: nat :: j < n ==> Bit(digital, j) == (j < i && bits[j])
    {
      if bits[i] {
        SetBitBound(digital, i, n);
        forall j: nat ensures Bit(SetBit(digital, i), j) == (i == j || Bit(digital, j)) { SetBitSets(digital, i, j); }
        digital := SetBit(digital, i);
      }
    }
    SameBits(digital, bits[..n]);
  }

  // ---- Requests ----------------------------------------------------------------------------

  function HighByte(v: nat): Byte { v / 256 % 256 }

  function LowByte(v: nat): Byte { v % 256 }

  function BigEndian(v: nat): seq<Byte> { [HighByte(v), LowByte(v)] }

  function Joined(high: nat, low: nat): nat { 256 * high + low }

  /** The request that writes coils: function 5 for one coil, function 15 for several. */
  function CoilsPdu(address: nat, values: seq<bool>): Result<seq<Byte>>
  {
    if values == [] then Failure("Cannot write zero coils")
    else if |values| == 1 then Success([5] + BigEndian(address) + BigEndian(if values[0] then 0xFF00 else 0))
    else Success([15] + BigEndian(address) + BigEndian(|values| % 0x1_0000) + [LowByte(ByteCount(|values|))] + Packed(values))
  }

  /** What a device reads from a request that writes coils (sections 6.5 and 6.11 of the MODBUS Application
      Protocol Specification V1.1b3), where the byte count must be the number of data bytes. */
  function ReadCoilsPdu(pdu: seq<Byte>): Option<(nat, seq<bool>)>
  {
    if |pdu| == 5 && pdu[0] == 5 && pdu[4] == 0 && pdu[3] in {0, 0xFF}
    then Some((Joined(pdu[1], pdu[2]), [pdu[3] == 0xFF]))
    else if |pdu| >= 6 && pdu[0] == 15 then
      var quantity := Joined(pdu[3], pdu[4]);
      if pdu[5] as int == ByteCount(quantity) == |pdu| - 6
      then Some((Joined(pdu[1], pdu[2]), Unpacked(pdu[6..], quantity)))
      else None
    else None
  }

  lemma BigEndianRoundTrip(v: nat)
    requires v < 0x1_0000
    ensures Joined(HighByte(v), LowByte(v)) == v
  {}

  lemma SeveralCoilsPdu(address: nat, values: seq<bool>)
    requires address < 0x1_0000 && 1 < |values| < 0x1_0000
    ensures var pdu := CoilsPdu(address, values).value;
            && |pdu| == 6 + ByteCount(|values|) && pdu[0] == 15 && pdu[6..] == Packed(values)
            && Joined(pdu[1], pdu[2]) == address && Joined(pdu[3], pdu[4]) == |values|
            && pdu[5] == LowByte(ByteCount(|values|))
  {
    BigEndianRoundTrip(address);
    BigEndianRoundTrip(|values|);
    hide HighByte, LowByte, Joined, Packed;
    assert |values| % 0x1_0000 == |values|;
  }

  lemma CountFitsIff(n: nat)
    requires n < 0x1_0000
    ensures LowByte(ByteCount(n)) as int == ByteCount(n) <==> n <= 2040
  {}

  /** A device reads back the address and the values, exactly if their byte count fits one byte. */
  lemma CoilsPduReadBackIff(address: nat, values: seq<bool>)
    requires address < 0x1_0000 && 0 < |values| < 0x1_0000
    ensures CoilsPdu(address, values).Success?
    ensures var pdu := CoilsPdu(address, values).value;
            |pdu| >= 5 && pdu[1] == address / 256 && pdu[2] == address % 256 && pdu[0] == if |values| == 1 then 5 else 15
    ensures ReadCoilsPdu(CoilsPdu(address, values).value) == Some((address, values)) <==> |values| <= 2040
  {
    if |values| > 1 {
      SeveralCoilsPdu(address, values);
      CountFitsIff(|values|);
      UnpackPacked(values);
      hide Joined, LowByte, HighByte, ByteCount, Packed, Unpacked;
    } else {
      BigEndianRoundTrip(address);
      var pdu := CoilsPdu(address, values).value;
      assert pdu == [5, HighByte(address), LowByte(address), if values[0] then 0xFF else 0, 0];
      assert values == [values[0]];
    }
  }
}
