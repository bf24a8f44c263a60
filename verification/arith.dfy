/** Machine number types, and division and remainder facts for the modules that use them. */
module Arith {

  const TWO_64: nat := 0x1_0000_0000_0000_0000

  type Byte = n: nat | n < 256
  type U32 = n: nat | n < 0x1_0000_0000
  type U64 = n: nat | n < TWO_64

  function Pow(b: nat, n: nat): (p: nat)
    ensures b > 0 ==> p > 0
  {
    if n == 0 then 1 else b * Pow(b, n - 1)
  }

  lemma MulSign(m: int, d: int)
    requires m > 0
    ensures d >= 1 ==> m * d >= m
    ensures d <= -1 ==> m * d <= -m
  {
  }

  /** A number written as a multiple plus a remainder has that quotient and that remainder. */
  lemma {:induction false} ModIs(x: int, q: int, r: int, m: int)
    requires 0 <= r < m && x == m * q + r
    ensures x % m == r && x / m == q
  {
    assert m * (x / m - q) == r - x % m;
    MulSign(m, x / m - q);
  }

  lemma {:induction false} ModPlus(r: int, inc: int, m: int)
    requires m > 0
    ensures (r + inc) % m == (r % m + inc) % m
  {
    var x := r % m + inc;
    assert r + inc == m * (r / m + x / m) + x % m;
    ModIs(r + inc, r / m + x / m, x % m, m);
  }

  lemma {:induction false} DivDiv(v: nat, a: nat, b: nat)
    requires a > 0 && b > 0
    ensures a * b > 0 && v / a / b == v / (a * b)
  {
    var q, r1, r2 := v / a / b, v % a, v / a % b;
    assert v == a * (b * q + r2) + r1;
    assert v == a * b * q + (a * r2 + r1);
    assert a * r2 <= a * (b - 1);
    ModIs(v, q, a * r2 + r1, a * b);
  }

  lemma {:induction false} Pow2Add(a: nat, b: nat)
    ensures Pow(2, a) * Pow(2, b) == Pow(2, a + b)
  {
    if a > 0 {
      Pow2Add(a - 1, b);
      assert Pow(2, a) * Pow(2, b) == 2 * (Pow(2, a - 1) * Pow(2, b));
    }
  }

  lemma Pow64()
    ensures Pow(2, 7) == 128 && Pow(2, 64) == TWO_64
  {
    assert Pow(2, 8) == 256;
    Pow2Add(8, 8);
    Pow2Add(16, 16);
    Pow2Add(32, 32);
  }
}
