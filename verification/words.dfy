/** The bitwise operators of C on 64-bit words, which are seen as numbers below 2^64.

    Each is defined by arithmetic or digit by digit; what it does to a single bit is a lemma. */
module Words {
  import opened Arith
  import opened Bits

  function One(b: bool): nat {
    if b then 1 else 0
  }

  /** The n low bits of x and y, combined pair by pair. */
  function Zip(op: (bool, bool) -> bool, x: nat, y: nat, n: nat): (z: nat)
    ensures z < Pow(2, n)
  {
    if n == 0 then 0 else 2 * Zip(op, x / 2, y / 2, n - 1) + One(op(x % 2 == 1, y % 2 == 1))
  }

  function Zip64(op: (bool, bool) -> bool, x: U64, y: U64): U64 {
    Pow64();
    Zip(op, x, y, 64)
  }

  function And(x: U64, y: U64): U64 {
    Zip64((a, b) => a && b, x, y)
  }

  function Or(x: U64, y: U64): U64 {
    Zip64((a, b) => a || b, x, y)
  }

  function Xor(x: U64, y: U64): U64 {
    Zip64((a, b) => a != b, x, y)
  }

  function Not(x: U64): U64 {
    TWO_64 - 1 - x
  }

  function Shr(x: U64, n: nat): U64 {
    ShrBelow(x, Pow(2, n));
    x / Pow(2, n)
  }

  function Shl(x: U64, n: nat): U64 {
    x * Pow(2, n) % TWO_64
  }

  function Plus(x: U64, y: U64): U64 {
    (x + y) % TWO_64
  }

  lemma {:induction false} ShrBelow(x: nat, d: nat)
    requires d > 0
    ensures x / d <= x
  {
    assert x == d * (x / d) + x % d;
    if x / d > 0 {
      MulSign(x / d, d);
    }
  }

  // ----- bit by bit -----

  lemma {:induction false} ZipBits(op: (bool, bool) -> bool, x: nat, y: nat, n: nat, i: nat)
    requires i < n
    ensures Bit(Zip(op, x, y, n), i) == op(Bit(x, i), Bit(y, i))
  {
    var b := One(op(x % 2 == 1, y % 2 == 1));
    ModIs(Zip(op, x, y, n), Zip(op, x / 2, y / 2, n - 1), b, 2);
    if i > 0 {
      ZipBits(op, x / 2, y / 2, n - 1, i - 1);
    }
  }

  lemma {:induction false} AndBits(x: U64, y: U64, i: nat)
    requires i < 64
    ensures Bit(And(x, y), i) <==> Bit(x, i) && Bit(y, i)
  {
    ZipBits((a, b) => a && b, x, y, 64, i);
  }

  lemma {:induction false} OrBits(x: U64, y: U64, i: nat)
    requires i < 64
    ensures Bit(Or(x, y), i) <==> Bit(x, i) || Bit(y, i)
  {
    ZipBits((a, b) => a || b, x, y, 64, i);
  }

  lemma {:induction false} XorBits(x: U64, y: U64, i: nat)
    requires i < 64
    ensures Bit(Xor(x, y), i) <==> (Bit(x, i) != Bit(y, i))
  {
    ZipBits((a, b) => a != b, x, y, 64, i);
  }

  lemma {:induction false} ComplementBits(x: nat, n: nat, i: nat)
    requires x < Pow(2, n) && i < n
    ensures Bit(Pow(2, n) - 1 - x, i) <==> !Bit(x, i)
  {
    var c := Pow(2, n) - 1 - x;
    ModIs(c, Pow(2, n - 1) - 1 - x / 2, 1 - x % 2, 2);
    if i > 0 {
      ComplementBits(x / 2, n - 1, i - 1);
    }
  }

  lemma {:induction false} NotBits(x: U64, i: nat)
    requires i < 64
    ensures Bit(Not(x), i) <==> !Bit(x, i)
  {
    Pow64();
    ComplementBits(x, 64, i);
  }

  lemma {:induction false} QuotientBits(x: nat, n: nat, i: nat)
    ensures Bit(x / Pow(2, n), i) <==> Bit(x, i + n)
  {
    if n > 0 {
      DivDiv(x, 2, Pow(2, n - 1));
      QuotientBits(x / 2, n - 1, i);
    }
  }

  lemma {:induction false} ProductBits(x: nat, n: nat, i: nat)
    ensures Bit(x * Pow(2, n), i) <==> i >= n && Bit(x, i - n)
  {
    if n > 0 {
      assert x * Pow(2, n) == 2 * (x * Pow(2, n - 1)) + 0;
      ModIs(x * Pow(2, n), x * Pow(2, n - 1), 0, 2);
      if i > 0 {
        ProductBits(x, n - 1, i - 1);
      }
    }
  }

  lemma {:induction false} RemainderBits(x: nat, n: nat, i: nat)
    requires i < n
    ensures Bit(x % Pow(2, n), i) <==> Bit(x, i)
  {
    var m, h := Pow(2, n), Pow(2, n - 1);
    ModIs(x / 2, x / m, x % m / 2, h) by {
      assert x == m * (x / m) + x % m && m == 2 * h;
      assert m * (x / m) == 2 * (h * (x / m));
    }
    assert x % m % 2 == x % 2 by {
      assert x == 2 * (h * (x / m)) + x % m;
      ModIs(x, h * (x / m) + x % m / 2, x % m % 2, 2);
    }
    if i > 0 {
      RemainderBits(x / 2, n - 1, i - 1);
    }
  }

  lemma {:induction false} NoHighBits(x: nat, n: nat, i: nat)
    requires x < Pow(2, n) && i >= n
    ensures !Bit(x, i)
  {
    if n == 0 {
      ZeroHasNoBits(i);
    } else {
      NoHighBits(x / 2, n - 1, i - 1);
    }
  }

  lemma {:induction false} ShrBits(x: U64, n: nat, i: nat)
    ensures Bit(Shr(x, n), i) <==> i + n < 64 && Bit(x, i + n)
  {
    QuotientBits(x, n, i);
    Pow64();
    if i + n >= 64 {
      NoHighBits(x, 64, i + n);
    }
  }

  lemma {:induction false} ShlBits(x: U64, n: nat, i: nat)
    requires i < 64
    ensures Bit(Shl(x, n), i) <==> i >= n && Bit(x, i - n)
  {
    Pow64();
    RemainderBits(x * Pow(2, n), 64, i);
    ProductBits(x, n, i);
  }
}
