/** Bits of machine words, seen as natural numbers. */
module Bits {

  /** test_bit on one word */
  predicate Bit(x: nat, n: nat) {
    if n == 0 then x % 2 == 1 else Bit(x / 2, n - 1)
  }

  /** __set_bit on one word */
  function SetBit(x: nat, n: nat): nat {
    if n == 0 then x / 2 * 2 + 1 else SetBit(x / 2, n - 1) * 2 + x % 2
  }

  /** x & GENMASK(n - 1, 0) */
  function LowBits(x: nat, n: nat): nat {
    if n == 0 then 0 else LowBits(x / 2, n - 1) * 2 + x % 2
  }

  /** hweight64 */
  function Weight(x: nat): nat {
    if x == 0 then 0 else Weight(x / 2) + x % 2
  }

  /** How many bits below n are set. */
  function Rank(x: nat, n: nat): nat {
    Weight(LowBits(x, n))
  }

  lemma {:induction false} ZeroHasNoBits(n: nat)
    ensures !Bit(0, n)
  {
    if n > 0 {
      ZeroHasNoBits(n - 1);
    }
  }

  lemma {:induction false} SetBitSets(x: nat, n: nat, k: nat)
    ensures Bit(SetBit(x, n), k) <==> k == n || Bit(x, k)
  {
    if n > 0 && k > 0 {
      SetBitSets(x / 2, n - 1, k - 1);
    }
  }

  lemma {:induction false} LowBitsKeep(x: nat, n: nat, k: nat)
    ensures Bit(LowBits(x, n), k) <==> k < n && Bit(x, k)
  {
    if n == 0 {
      ZeroHasNoBits(k);
    } else if k > 0 {
      LowBitsKeep(x / 2, n - 1, k - 1);
    }
  }

  lemma WeightDouble(x: nat, b: nat)
    requires b < 2
    ensures Weight(2 * x + b) == Weight(x) + b
  {
    assert (2 * x + b) / 2 == x;
  }

  lemma {:induction false} RankStep(x: nat, n: nat)
    ensures Rank(x, n + 1) == Rank(x, n) + if Bit(x, n) then 1 else 0
  {
    WeightDouble(LowBits(x / 2, n), x % 2);
    if n == 0 {
      assert LowBits(x, 1) == x % 2;
    } else {
      RankStep(x / 2, n - 1);
      WeightDouble(LowBits(x / 2, n - 1), x % 2);
    }
  }

  lemma {:induction false} RankBound(x: nat, n: nat)
    ensures Rank(x, n) <= n
    ensures Rank(x, n) + (if Bit(x, n) then 1 else 0) <= Weight(x)
  {
    if n > 0 {
      RankBound(x / 2, n - 1);
      WeightDouble(LowBits(x / 2, n - 1), x % 2);
    }
  }

  /** Words with the same bits are the same word. */
  lemma {:induction false} SameBits(x: nat, y: nat)
    requires forall k: nat :: Bit(x, k) <==> Bit(y, k)
    ensures x == y
  {
    if x != 0 || y != 0 {
      assert Bit(x, 0) <==> Bit(y, 0);
      forall k: nat ensures Bit(x / 2, k) <==> Bit(y / 2, k) {
        assert Bit(x, k + 1) <==> Bit(y, k + 1);
      }
      SameBits(x / 2, y / 2);
    }
  }

  // ----- bitmaps: arrays of 64-bit words -----

  predicate BitAt(words: seq<nat>, n: nat) {
    n / 64 < |words| && Bit(words[n / 64], n % 64)
  }

  lemma SetBitAt(words: seq<nat>, n: nat, k: nat)
    requires n / 64 < |words|
    ensures BitAt(words[n / 64 := SetBit(words[n / 64], n % 64)], k) <==> k == n || BitAt(words, k)
  {
    SetBitSets(words[n / 64], n % 64, k % 64);
  }
}
