/** Two's-complement arithmetic on 32-bit values and their little-endian encoding in byte-addressed memory. */
module Words {

  type Byte = b: int | 0 <= b < 0x100
  type I32 = x: int | -0x8000_0000 <= x < 0x8000_0000

  const I32_MIN: I32 := -0x8000_0000

  /** A truth value as the languages on both sides represent it. */
  function Truth(b: bool): I32 { if b then 1 else 0 }

  /** Number of values of an `n`-byte integer. */
  function Modulus(n: nat): (m: nat)
    ensures m in {0x100, 0x1_0000, 0x1_0000_0000}
  {
    if n == 1 then 0x100 else if n == 2 then 0x1_0000 else 0x1_0000_0000
  }

  /** The signed value of an unsigned `n`-byte integer. */
  function SignExtend(u: nat, n: nat): (v: I32)
    requires u < Modulus(n)
  {
    if u < Modulus(n) / 2 then u else u - Modulus(n)
  }

  /** What an `n`-byte signed cell holds after `v` is stored into it. */
  function Narrow(v: int, n: nat): (r: I32)
    ensures -(Modulus(n) as int) <= 2 * r < Modulus(n)
    ensures -(Modulus(n) as int) <= 2 * v < Modulus(n) ==> r == v
  {
    SignExtend(LowBytes(v, n), n)
  }

  /** `v` modulo the range of an `n`-byte integer. */
  function LowBytes(v: int, n: nat): (u: nat)
    ensures u < Modulus(n)
    ensures 0 <= v < Modulus(n) ==> u == v
    ensures -(Modulus(n) as int) <= v < 0 ==> u == v + Modulus(n)
  {
    if n == 1 then v % 0x100 else if n == 2 then v % 0x1_0000 else v % 0x1_0000_0000
  }

  function Wrap32(v: int): (r: I32)
    ensures v == r as int || v < I32_MIN || 0x8000_0000 <= v
  {
    Narrow(v, 4)
  }

  /** The unsigned reading of an i32, used for effective addresses and bit patterns. */
  function Unsigned(v: I32): (u: nat)
    ensures u < 0x1_0000_0000
  {
    if v < 0 then v + 0x1_0000_0000 else v
  }

  /** Division rounding toward zero. */
  function TruncDiv(a: int, b: int): int
    requires b != 0
  {
    if (a >= 0) == (b > 0) then Abs(a) / Abs(b) else -(Abs(a) / Abs(b))
  }

  /** Remainder with the sign of the dividend. */
  function TruncRem(a: int, b: int): int
    requires b != 0
  {
    if a >= 0 then Abs(a) % Abs(b) else -(Abs(a) % Abs(b))
  }

  function Abs(a: int): nat { if a < 0 then -a else a }

  /** Truncating division and remainder recompose the dividend, the remainder is
      smaller than the divisor and takes the sign of the dividend. */
  lemma TruncDivRem(a: int, b: int)
    requires b != 0
    ensures a == b * TruncDiv(a, b) + TruncRem(a, b)
    ensures Abs(TruncRem(a, b)) < Abs(b)
    ensures TruncRem(a, b) == 0 || (TruncRem(a, b) > 0) == (a > 0)
  {
    var q, r := Abs(a) / Abs(b), Abs(a) % Abs(b);
    DivModAbs(Abs(a), Abs(b), q, r);
    SignedProduct(b, q);
    if a >= 0 {
      assert TruncRem(a, b) == r;
      assert TruncDiv(a, b) == if b > 0 then q else -q;
    } else {
      assert TruncRem(a, b) == -r;
      assert TruncDiv(a, b) == if b > 0 then -q else q;
    }
  }

  lemma DivModAbs(a: nat, b: nat, q: int, r: int)
    requires b > 0 && q == a / b && r == a % b
    ensures a == b * q + r && 0 <= r < b && q >= 0
  {}

  lemma SignedProduct(b: int, q: int)
    ensures b * (-q) == -(b * q) && (-b) * q == -(b * q)
  {}

  lemma ScaledBound(b: int, q: int)
    requires b >= 1 && q >= 0
    ensures b * q >= q
    ensures b >= 2 ==> b * q >= 2 * q
  {
    if b > 2 {
      ScaledBound(b - 1, q);
      assert b * q == (b - 1) * q + q;
    }
  }

  /** Only MIN / -1 leaves the 32-bit range. */
  lemma TruncDivFits(a: I32, b: I32)
    requires b != 0 && !(a == I32_MIN && b == -1)
    ensures I32_MIN <= TruncDiv(a, b) < 0x8000_0000
    ensures I32_MIN <= TruncRem(a, b) < 0x8000_0000
  {
    var q, r := Abs(a) / Abs(b), Abs(a) % Abs(b);
    DivModAbs(Abs(a), Abs(b), q, r);
    ScaledBound(Abs(b), q);
  }

  // ---- Bitwise operators -------------------------------------------------

  datatype BitOp = BitAnd | BitOr | BitXor
  {
    function Apply(a: nat, b: nat): (r: nat)
      requires a < 2 && b < 2
      ensures r < 2
    {
      match this
      case BitAnd => if a == 1 && b == 1 then 1 else 0
      case BitOr => if a == 1 || b == 1 then 1 else 0
      case BitXor => if a == b then 0 else 1
    }
  }

  function Pow2(n: nat): (p: nat)
    ensures p >= 1
  {
    if n == 0 then 1 else 2 * Pow2(n - 1)
  }

  /** Bit-by-bit combination of the low `n` bits. */
  function Bitwise(op: BitOp, a: nat, b: nat, n: nat): (r: nat)
    ensures r < Pow2(n)
  {
    if n == 0 then 0 else op.Apply(a % 2, b % 2) + 2 * Bitwise(op, a / 2, b / 2, n - 1)
  }

  function Bitwise32(op: BitOp, a: I32, b: I32): I32
  {
    Pow2At32();
    SignExtend(Bitwise(op, Unsigned(a), Unsigned(b), 32), 4)
  }

  lemma Pow2At32()
    ensures Pow2(32) == 0x1_0000_0000
  {
    assert Pow2(8) == 0x100;
    assert Pow2(16) == 0x1_0000;
    assert Pow2(24) == 0x100_0000;
  }

  lemma {:induction false} BitwiseOfZero(op: BitOp, n: nat)
    ensures Bitwise(op, 0, 0, n) == 0
  {
    if n > 0 {
      BitwiseOfZero(op, n - 1);
    }
  }

  lemma BitwiseOfBits(op: BitOp, a: nat, b: nat, n: nat)
    requires n > 0 && a in {0, 1} && b in {0, 1}
    ensures Bitwise(op, a, b, n) == op.Apply(a, b)
  {
    BitwiseOfZero(op, n - 1);
  }

  /** On 0 and 1 the i32 bitwise instructions are the logical connectives. */
  lemma BitwiseOnBooleans(op: BitOp, a: I32, b: I32)
    requires a in {0, 1} && b in {0, 1}
    ensures Bitwise32(op, a, b) == op.Apply(a, b)
  {
    BitwiseOfBits(op, a, b, 32);
    hide Bitwise, Pow2;
  }

  // ---- Memory ------------------------------------------------------------

  type Memory = seq<Byte>

  function EncodeLE(v: int, n: nat): (b: seq<Byte>)
    requires n in {1, 2, 4}
    ensures |b| == n
  {
    if n == 1 then [v % 0x100]
    else if n == 2 then [v % 0x100, v / 0x100 % 0x100]
    else [v % 0x100, v / 0x100 % 0x100, v / 0x1_0000 % 0x100, v / 0x100_0000 % 0x100]
  }

  function DecodeLE(b: seq<Byte>): (u: nat)
    requires |b| in {1, 2, 4}
    ensures u < Modulus(|b|)
  {
    var digit := (i: nat) requires i < |b| => b[i] as int;
    if |b| == 1 then digit(0)
    else if |b| == 2 then digit(0) + 0x100 * digit(1)
    else digit(0) + 0x100 * digit(1) + 0x1_0000 * digit(2) + 0x100_0000 * digit(3)
  }

  lemma DecodeEncode(v: int, n: nat)
    requires n in {1, 2, 4}
    ensures DecodeLE(EncodeLE(v, n)) == LowBytes(v, n)
  {
    var q1 := v / 0x100;
    var q2 := v / 0x1_0000;
    var q3 := v / 0x100_0000;
    var q4 := v / 0x1_0000_0000;
    assert q2 == q1 / 0x100 && q3 == q2 / 0x100 && q4 == q3 / 0x100;
  }

  /** Sign-extending load of `n` bytes. */
  function LoadS(m: Memory, addr: nat, n: nat): I32
    requires n in {1, 2, 4} && addr + n <= |m|
  {
    SignExtend(DecodeLE(m[addr..addr + n]), n)
  }

  /** Truncating store of `n` bytes. */
  function Store(m: Memory, addr: nat, n: nat, v: int): (m': Memory)
    requires n in {1, 2, 4} && addr + n <= |m|
    ensures |m'| == |m|
    ensures forall i :: 0 <= i < |m| && !(addr <= i < addr + n) ==> m'[i] == m[i]
  {
    m[..addr] + EncodeLE(v, n) + m[addr + n..]
  }

  lemma LoadAfterStore(m: Memory, addr: nat, n: nat, v: int)
    requires n in {1, 2, 4} && addr + n <= |m|
    ensures LoadS(Store(m, addr, n, v), addr, n) == Narrow(v, n)
  {
    assert Store(m, addr, n, v)[addr..addr + n] == EncodeLE(v, n);
    DecodeEncode(v, n);
  }

  /** A store changes no load from a disjoint interval. */
  lemma LoadElsewhere(m: Memory, addr: nat, n: nat, v: int, other: nat, k: nat)
    requires n in {1, 2, 4} && k in {1, 2, 4} && addr + n <= |m| && other + k <= |m|
    requires other + k <= addr || addr + n <= other
    ensures LoadS(Store(m, addr, n, v), other, k) == LoadS(m, other, k)
  {
    var m' := Store(m, addr, n, v);
    assert m'[other..other + k] == m[other..other + k];
  }
}
