/** Minima and maxima, and quotients and remainders by a variable divisor. */
module Arithmetic {

  function Min(a: int, b: int): (m: int)
    ensures a >= 0 && b >= 0 ==> m >= 0
  {
    if a <= b then a else b
  }

  function Max(a: nat, b: nat): nat { if a >= b then a else b }

  lemma ModUnique(a: int, m: int, q: int, r: int)
    requires m > 0 && a == q * m + r && 0 <= r < m
    ensures a % m == r
  {
    var p := a / m;
    assert a == p * m + a % m;
    assert (q - p) * m == q * m - p * m && (p - q) * m == p * m - q * m;
    if q > p {
      Scale(q - p, m);
    } else if q < p {
      Scale(p - q, m);
    }
  }

  lemma {:induction false} Scale(k: int, m: int)
    requires k >= 1 && m > 0
    ensures k * m >= m
    decreases k
  {
    if k > 1 {
      Scale(k - 1, m);
      assert k * m == (k - 1) * m + m;
    }
  }

  /** Going around once returns to the same slot. */
  lemma ModShift(a: nat, i: nat, m: nat)
    requires m > 0
    ensures (a + m) % m == a % m && (a % m + i) % m == (a + i) % m
  {
    var p, r := a / m, a % m;
    assert a == p * m + r;
    assert a + m == (p + 1) * m + r;
    ModUnique(a + m, m, p + 1, r);
    var q, t := (r + i) / m, (r + i) % m;
    assert r + i == q * m + t;
    assert a + i == (p + q) * m + t;
    ModUnique(a + i, m, p + q, t);
  }
}
