/** Where the constants of SHA-512 come from (wamr-pal/sha512_simple.c:50-100; FIPS 180-4, sections
    4.2.3 and 5.3.5): the first 64 bits of the fractional parts of the cube roots of the first 80
    primes, and of the square roots of the first eight. */
module Sha512Constants {
  import opened Arith
  import opened Sha512

  // ----- the first 80 primes -----

  ghost predicate Prime(n: nat) {
    n >= 2 && forall d :: 2 <= d < n ==> n % d != 0
  }

  ghost function PrimesBelow(n: nat): nat {
    if n == 0 then 0 else PrimesBelow(n - 1) + if Prime(n - 1) then 1 else 0
  }

  function PrimeRow(row: nat): (p: seq<nat>)
    requires row < 10
    ensures |p| == 8
  {
    match row
    case 0 => [2, 3, 5, 7, 11, 13, 17, 19]
    case 1 => [23, 29, 31, 37, 41, 43, 47, 53]
    case 2 => [59, 61, 67, 71, 73, 79, 83, 89]
    case 3 => [97, 101, 103, 107, 109, 113, 127, 131]
    case 4 => [137, 139, 149, 151, 157, 163, 167, 173]
    case 5 => [179, 181, 191, 193, 197, 199, 211, 223]
    case 6 => [227, 229, 233, 239, 241, 251, 257, 263]
    case 7 => [269, 271, 277, 281, 283, 293, 307, 311]
    case 8 => [313, 317, 331, 337, 347, 349, 353, 359]
    case _ => [367, 373, 379, 383, 389, 397, 401, 409]
  }

  function NthPrime(t: nat): nat
    requires t < 80
  {
    PrimeRow(t / 8)[t % 8]
  }

  /** Enough to find the primes below 23 * 23. */
  predicate Sieve(n: nat) {
    && n >= 2
    && (n % 2 == 0 ==> n == 2) && (n % 3 == 0 ==> n == 3) && (n % 5 == 0 ==> n == 5) && (n % 7 == 0 ==> n == 7)
    && (n % 11 == 0 ==> n == 11) && (n % 13 == 0 ==> n == 13) && (n % 17 == 0 ==> n == 17) && (n % 19 == 0 ==> n == 19)
  }

  /** From a on, b is the first number that the sieve lets through. */
  predicate NextIs(a: nat, b: nat)
    decreases b - a
  {
    if a >= b then a == b && Sieve(b) else !Sieve(a) && NextIs(a + 1, b)
  }

  lemma {:induction false} FactorMod(n: nat, d: nat, c: nat)
    requires c > 0 && d > 0 && n % d == 0 && d % c == 0
    ensures n % c == 0
  {
    assert n == d * (n / d) && d == c * (d / c);
    assert n == c * ((d / c) * (n / d));
    ModIs(n, (d / c) * (n / d), 0, c);
  }

  /** A number below 23 has one of the primes below 23 as a factor. */
  lemma SmallHasPrimeFactor(d: nat) returns (c: nat)
    requires 2 <= d < 23
    ensures c in [2, 3, 5, 7, 11, 13, 17, 19] && d % c == 0
  {
    c := if d % 2 == 0 then 2 else if d % 3 == 0 then 3 else if d % 5 == 0 then 5 else if d % 7 == 0 then 7 else d;
  }

  lemma {:induction false} SmallDivisor(n: nat, d: nat) returns (e: nat)
    requires n < 529 && 2 <= d < n && n % d == 0
    ensures 2 <= e < 23 && e < n && n % e == 0
  {
    var q := n / d;
    assert n == d * q;
    if d < 23 {
      e := d;
    } else {
      e := q;
      ModIs(n, d, 0, q);
    }
  }

  lemma {:induction false} SieveFindsPrimes(n: nat)
    requires n < 529
    ensures Sieve(n) <==> Prime(n)
  {
    if n >= 2 && !Prime(n) {
      var d :| 2 <= d < n && n % d == 0;
      var e := SmallDivisor(n, d);
      var c := SmallHasPrimeFactor(e);
      FactorMod(n, e, c);
    }
  }

  lemma {:induction false} NextPrimeCounts(a: nat, b: nat)
    requires a <= b < 529 && NextIs(a, b)
    ensures Prime(b) && PrimesBelow(b) == PrimesBelow(a)
    decreases b - a
  {
    SieveFindsPrimes(a);
    if a < b {
      NextPrimeCounts(a + 1, b);
    }
  }

  // ----- roots -----

  const TWO_128: nat := 0x1_0000000000000000_0000000000000000
  const TWO_192: nat := 0x1_0000000000000000_0000000000000000_0000000000000000

  predicate SquareRoot(r: nat, x: nat) {
    r * r <= x < (r + 1) * (r + 1)
  }

  predicate CubeRoot(r: nat, x: nat) {
    r * r * r <= x < (r + 1) * (r + 1) * (r + 1)
  }

  /** The cube roots of the primes, times 2^64. */
  function RootRow(row: nat): (r: seq<nat>)
    requires row < 10
    ensures |r| == 8
  {
    match row
    case 0 => [
      0x1_428a2f98d728ae22, 0x1_7137449123ef65cd, 0x1_b5c0fbcfec4d3b2f, 0x1_e9b5dba58189dbbc,
      0x2_3956c25bf348b538, 0x2_59f111f1b605d019, 0x2_923f82a4af194f9b, 0x2_ab1c5ed5da6d8118]
    case 1 => [
      0x2_d807aa98a3030242, 0x3_12835b0145706fbe, 0x3_243185be4ee4b28c, 0x3_550c7dc3d5ffb4e2,
      0x3_72be5d74f27b896f, 0x3_80deb1fe3b1696b1, 0x3_9bdc06a725c71235, 0x3_c19bf174cf692694]
    case 2 => [
      0x3_e49b69c19ef14ad2, 0x3_efbe4786384f25e3, 0x4_0fc19dc68b8cd5b5, 0x4_240ca1cc77ac9c65,
      0x4_2de92c6f592b0275, 0x4_4a7484aa6ea6e483, 0x4_5cb0a9dcbd41fbd4, 0x4_76f988da831153b5]
    case 3 => [
      0x4_983e5152ee66dfab, 0x4_a831c66d2db43210, 0x4_b00327c898fb213f, 0x4_bf597fc7beef0ee4,
      0x4_c6e00bf33da88fc2, 0x4_d5a79147930aa725, 0x5_06ca6351e003826f, 0x5_142929670a0e6e70]
    case 4 => [
      0x5_27b70a8546d22ffc, 0x5_2e1b21385c26c926, 0x5_4d2c6dfc5ac42aed, 0x5_53380d139d95b3df,
      0x5_650a73548baf63de, 0x5_766a0abb3c77b2a8, 0x5_81c2c92e47edaee6, 0x5_92722c851482353b]
    case 5 => [
      0x5_a2bfe8a14cf10364, 0x5_a81a664bbc423001, 0x5_c24b8b70d0f89791, 0x5_c76c51a30654be30,
      0x5_d192e819d6ef5218, 0x5_d69906245565a910, 0x5_f40e35855771202a, 0x6_106aa07032bbd1b8]
    case 6 => [
      0x6_19a4c116b8d2d0c8, 0x6_1e376c085141ab53, 0x6_2748774cdf8eeb99, 0x6_34b0bcb5e19b48a8,
      0x6_391c0cb3c5c95a63, 0x6_4ed8aa4ae3418acb, 0x6_5b9cca4f7763e373, 0x6_682e6ff3d6b2b8a3]
    case 7 => [
      0x6_748f82ee5defb2fc, 0x6_78a5636f43172f60, 0x6_84c87814a1f0ab72, 0x6_8cc702081a6439ec,
      0x6_90befffa23631e28, 0x6_a4506cebde82bde9, 0x6_bef9a3f7b2c67915, 0x6_c67178f2e372532b]
    case 8 => [
      0x6_ca273eceea26619c, 0x6_d186b8c721c0c207, 0x6_eada7dd6cde0eb1e, 0x6_f57d4f7fee6ed178,
      0x7_06f067aa72176fba, 0x7_0a637dc5a2c898a6, 0x7_113f9804bef90dae, 0x7_1b710b35131c471b]
    case _ => [
      0x7_28db77f523047d84, 0x7_32caab7b40c72493, 0x7_3c9ebe0a15c9bebc, 0x7_431d67c49c100d4c,
      0x7_4cc5d4becb3e42b6, 0x7_597f299cfc657e2a, 0x7_5fcb6fab3ad6faec, 0x7_6c44198c4a475817]
  }

  lemma Row0()
    ensures CubeRoot(0x1_428a2f98d728ae22, 2 * TWO_192) && NextIs(0, 2)
    ensures CubeRoot(0x1_7137449123ef65cd, 3 * TWO_192) && NextIs(3, 3)
    ensures CubeRoot(0x1_b5c0fbcfec4d3b2f, 5 * TWO_192) && NextIs(4, 5)
    ensures CubeRoot(0x1_e9b5dba58189dbbc, 7 * TWO_192) && NextIs(6, 7)
    ensures CubeRoot(0x2_3956c25bf348b538, 11 * TWO_192) && NextIs(8, 11)
    ensures CubeRoot(0x2_59f111f1b605d019, 13 * TWO_192) && NextIs(12, 13)
    ensures CubeRoot(0x2_923f82a4af194f9b, 17 * TWO_192) && NextIs(14, 17)
    ensures CubeRoot(0x2_ab1c5ed5da6d8118, 19 * TWO_192) && NextIs(18, 19)
  {
  }

  lemma Row1()
    ensures CubeRoot(0x2_d807aa98a3030242, 23 * TWO_192) && NextIs(20, 23)
    ensures CubeRoot(0x3_12835b0145706fbe, 29 * TWO_192) && NextIs(24, 29)
    ensures CubeRoot(0x3_243185be4ee4b28c, 31 * TWO_192) && NextIs(30, 31)
    ensures CubeRoot(0x3_550c7dc3d5ffb4e2, 37 * TWO_192) && NextIs(32, 37)
    ensures CubeRoot(0x3_72be5d74f27b896f, 41 * TWO_192) && NextIs(38, 41)
    ensures CubeRoot(0x3_80deb1fe3b1696b1, 43 * TWO_192) && NextIs(42, 43)
    ensures CubeRoot(0x3_9bdc06a725c71235, 47 * TWO_192) && NextIs(44, 47)
    ensures CubeRoot(0x3_c19bf174cf692694, 53 * TWO_192) && NextIs(48, 53)
  {
  }

  lemma Row2()
    ensures CubeRoot(0x3_e49b69c19ef14ad2, 59 * TWO_192) && NextIs(54, 59)
    ensures CubeRoot(0x3_efbe4786384f25e3, 61 * TWO_192) && NextIs(60, 61)
    ensures CubeRoot(0x4_0fc19dc68b8cd5b5, 67 * TWO_192) && NextIs(62, 67)
    ensures CubeRoot(0x4_240ca1cc77ac9c65, 71 * TWO_192) && NextIs(68, 71)
    ensures CubeRoot(0x4_2de92c6f592b0275, 73 * TWO_192) && NextIs(72, 73)
    ensures CubeRoot(0x4_4a7484aa6ea6e483, 79 * TWO_192) && NextIs(74, 79)
    ensures CubeRoot(0x4_5cb0a9dcbd41fbd4, 83 * TWO_192) && NextIs(80, 83)
    ensures CubeRoot(0x4_76f988da831153b5, 89 * TWO_192) && NextIs(84, 89)
  {
  }

  lemma Row3()
    ensures CubeRoot(0x4_983e5152ee66dfab, 97 * TWO_192) && NextIs(90, 97)
    ensures CubeRoot(0x4_a831c66d2db43210, 101 * TWO_192) && NextIs(98, 101)
    ensures CubeRoot(0x4_b00327c898fb213f, 103 * TWO_192) && NextIs(102, 103)
    ensures CubeRoot(0x4_bf597fc7beef0ee4, 107 * TWO_192) && NextIs(104, 107)
    ensures CubeRoot(0x4_c6e00bf33da88fc2, 109 * TWO_192) && NextIs(108, 109)
    ensures CubeRoot(0x4_d5a79147930aa725, 113 * TWO_192) && NextIs(110, 113)
    ensures CubeRoot(0x5_06ca6351e003826f, 127 * TWO_192) && NextIs(114, 127)
    ensures CubeRoot(0x5_142929670a0e6e70, 131 * TWO_192) && NextIs(128, 131)
  {
  }

  lemma Row4()
    ensures CubeRoot(0x5_27b70a8546d22ffc, 137 * TWO_192) && NextIs(132, 137)
    ensures CubeRoot(0x5_2e1b21385c26c926, 139 * TWO_192) && NextIs(138, 139)
    ensures CubeRoot(0x5_4d2c6dfc5ac42aed, 149 * TWO_192) && NextIs(140, 149)
    ensures CubeRoot(0x5_53380d139d95b3df, 151 * TWO_192) && NextIs(150, 151)
    ensures CubeRoot(0x5_650a73548baf63de, 157 * TWO_192) && NextIs(152, 157)
    ensures CubeRoot(0x5_766a0abb3c77b2a8, 163 * TWO_192) && NextIs(158, 163)
    ensures CubeRoot(0x5_81c2c92e47edaee6, 167 * TWO_192) && NextIs(164, 167)
    ensures CubeRoot(0x5_92722c851482353b, 173 * TWO_192) && NextIs(168, 173)
  {
  }

  lemma Row5()
    ensures CubeRoot(0x5_a2bfe8a14cf10364, 179 * TWO_192) && NextIs(174, 179)
    ensures CubeRoot(0x5_a81a664bbc423001, 181 * TWO_192) && NextIs(180, 181)
    ensures CubeRoot(0x5_c24b8b70d0f89791, 191 * TWO_192) && NextIs(182, 191)
    ensures CubeRoot(0x5_c76c51a30654be30, 193 * TWO_192) && NextIs(192, 193)
    ensures CubeRoot(0x5_d192e819d6ef5218, 197 * TWO_192) && NextIs(194, 197)
    ensures CubeRoot(0x5_d69906245565a910, 199 * TWO_192) && NextIs(198, 199)
    ensures CubeRoot(0x5_f40e35855771202a, 211 * TWO_192) && NextIs(200, 211)
    ensures CubeRoot(0x6_106aa07032bbd1b8, 223 * TWO_192) && NextIs(212, 223)
  {
  }

  lemma Row6()
    ensures CubeRoot(0x6_19a4c116b8d2d0c8, 227 * TWO_192) && NextIs(224, 227)
    ensures CubeRoot(0x6_1e376c085141ab53, 229 * TWO_192) && NextIs(228, 229)
    ensures CubeRoot(0x6_2748774cdf8eeb99, 233 * TWO_192) && NextIs(230, 233)
    ensures CubeRoot(0x6_34b0bcb5e19b48a8, 239 * TWO_192) && NextIs(234, 239)
    ensures CubeRoot(0x6_391c0cb3c5c95a63, 241 * TWO_192) && NextIs(240, 241)
    ensures CubeRoot(0x6_4ed8aa4ae3418acb, 251 * TWO_192) && NextIs(242, 251)
    ensures CubeRoot(0x6_5b9cca4f7763e373, 257 * TWO_192) && NextIs(252, 257)
    ensures CubeRoot(0x6_682e6ff3d6b2b8a3, 263 * TWO_192) && NextIs(258, 263)
  {
  }

  lemma Row7()
    ensures CubeRoot(0x6_748f82ee5defb2fc, 269 * TWO_192) && NextIs(264, 269)
    ensures CubeRoot(0x6_78a5636f43172f60, 271 * TWO_192) && NextIs(270, 271)
    ensures CubeRoot(0x6_84c87814a1f0ab72, 277 * TWO_192) && NextIs(272, 277)
    ensures CubeRoot(0x6_8cc702081a6439ec, 281 * TWO_192) && NextIs(278, 281)
    ensures CubeRoot(0x6_90befffa23631e28, 283 * TWO_192) && NextIs(282, 283)
    ensures CubeRoot(0x6_a4506cebde82bde9, 293 * TWO_192) && NextIs(284, 293)
    ensures CubeRoot(0x6_bef9a3f7b2c67915, 307 * TWO_192) && NextIs(294, 307)
    ensures CubeRoot(0x6_c67178f2e372532b, 311 * TWO_192) && NextIs(308, 311)
  {
  }

  lemma Row8()
    ensures CubeRoot(0x6_ca273eceea26619c, 313 * TWO_192) && NextIs(312, 313)
    ensures CubeRoot(0x6_d186b8c721c0c207, 317 * TWO_192) && NextIs(314, 317)
    ensures CubeRoot(0x6_eada7dd6cde0eb1e, 331 * TWO_192) && NextIs(318, 331)
    ensures CubeRoot(0x6_f57d4f7fee6ed178, 337 * TWO_192) && NextIs(332, 337)
    ensures CubeRoot(0x7_06f067aa72176fba, 347 * TWO_192) && NextIs(338, 347)
    ensures CubeRoot(0x7_0a637dc5a2c898a6, 349 * TWO_192) && NextIs(348, 349)
    ensures CubeRoot(0x7_113f9804bef90dae, 353 * TWO_192) && NextIs(350, 353)
    ensures CubeRoot(0x7_1b710b35131c471b, 359 * TWO_192) && NextIs(354, 359)
  {
  }

  lemma Row9()
    ensures CubeRoot(0x7_28db77f523047d84, 367 * TWO_192) && NextIs(360, 367)
    ensures CubeRoot(0x7_32caab7b40c72493, 373 * TWO_192) && NextIs(368, 373)
    ensures CubeRoot(0x7_3c9ebe0a15c9bebc, 379 * TWO_192) && NextIs(374, 379)
    ensures CubeRoot(0x7_431d67c49c100d4c, 383 * TWO_192) && NextIs(380, 383)
    ensures CubeRoot(0x7_4cc5d4becb3e42b6, 389 * TWO_192) && NextIs(384, 389)
    ensures CubeRoot(0x7_597f299cfc657e2a, 397 * TWO_192) && NextIs(390, 397)
    ensures CubeRoot(0x7_5fcb6fab3ad6faec, 401 * TWO_192) && NextIs(398, 401)
    ensures CubeRoot(0x7_6c44198c4a475817, 409 * TWO_192) && NextIs(402, 409)
  {
  }

  /** Where the search for a prime starts: behind the one before it. */
  function SearchFrom(row: nat, j: nat): nat
    requires row < 10 && j < 8
  {
    if j > 0 then PrimeRow(row)[j - 1] + 1 else if row > 0 then PrimeRow(row - 1)[7] + 1 else 0
  }

  predicate Derived(row: nat, j: nat)
    requires row < 10 && j < 8
  {
    && KRow(row)[j] == RootRow(row)[j] % TWO_64
    && CubeRoot(RootRow(row)[j], PrimeRow(row)[j] * TWO_192)
    && NextIs(SearchFrom(row, j), PrimeRow(row)[j])
  }

  lemma {:induction false} LowWords(row: nat, j: nat)
    requires row < 5 && j < 8
    ensures KRow(row)[j] == RootRow(row)[j] % TWO_64
  {
  }

  lemma {:induction false} HighWords(row: nat, j: nat)
    requires 5 <= row < 10 && j < 8
    ensures KRow(row)[j] == RootRow(row)[j] % TWO_64
  {
  }

  lemma {:induction false} LowRows(row: nat, j: nat)
    requires row < 5 && j < 8
    ensures CubeRoot(RootRow(row)[j], PrimeRow(row)[j] * TWO_192) && NextIs(SearchFrom(row, j), PrimeRow(row)[j])
  {
    hide CubeRoot, NextIs, KRow;
    match row
    case 0 => Row0();
    case 1 => Row1();
    case 2 => Row2();
    case 3 => Row3();
    case _ => Row4();
  }

  lemma {:induction false} HighRows(row: nat, j: nat)
    requires 5 <= row < 10 && j < 8
    ensures CubeRoot(RootRow(row)[j], PrimeRow(row)[j] * TWO_192) && NextIs(SearchFrom(row, j), PrimeRow(row)[j])
  {
    hide CubeRoot, NextIs, KRow;
    match row
    case 5 => Row5();
    case 6 => Row6();
    case 7 => Row7();
    case 8 => Row8();
    case _ => Row9();
  }

  lemma {:induction false} RowsAreDerived(row: nat, j: nat)
    requires row < 10 && j < 8
    ensures Derived(row, j)
  {
    hide CubeRoot, NextIs, KRow, RootRow, PrimeRow, SearchFrom;
    if row < 5 {
      LowWords(row, j);
      LowRows(row, j);
    } else {
      HighWords(row, j);
      HighRows(row, j);
    }
  }

  // ----- where the constants come from -----

  lemma {:induction false} NthPrimeIs(t: nat)
    requires t < 80
    ensures Prime(NthPrime(t)) && PrimesBelow(NthPrime(t)) == t && NthPrime(t) < 529
  {
    hide PrimeRow, KRow, RootRow, CubeRoot, SearchFrom, Prime, NextIs;
    RowsAreDerived(t / 8, t % 8);
    PrimesSmall(t / 8, t % 8);
    var from := SearchFrom(t / 8, t % 8);
    SearchIsBehind(t);
    if t > 0 {
      NthPrimeIs(t - 1);
    }
    NextIsBehind(from, NthPrime(t));
    NextPrimeCounts(from, NthPrime(t));
  }

  lemma {:induction false} SearchIsBehind(t: nat)
    requires t < 80
    ensures SearchFrom(t / 8, t % 8) == if t == 0 then 0 else NthPrime(t - 1) + 1
  {
    hide PrimeRow;
    if t > 0 {
      ModIs(t - 1, if t % 8 > 0 then t / 8 else t / 8 - 1, if t % 8 > 0 then t % 8 - 1 else 7, 8);
    }
  }

  lemma {:induction false} PrimesSmall(row: nat, j: nat)
    requires row < 10 && j < 8
    ensures PrimeRow(row)[j] < 529
  {
  }

  lemma {:induction false} NextIsBehind(a: nat, b: nat)
    requires NextIs(a, b)
    ensures a <= b
  {
  }

  /** There is only one number whose cube or square is the last that fits. */
  lemma {:induction false} RootsAreUnique(r: nat, s: nat, x: nat)
    ensures SquareRoot(r, x) && SquareRoot(s, x) ==> r == s
    ensures CubeRoot(r, x) && CubeRoot(s, x) ==> r == s
  {
    if r < s {
      RootsGrow(r + 1, s);
    } else if s < r {
      RootsGrow(s + 1, r);
    }
  }

  lemma {:induction false} RootsGrow(a: nat, b: nat)
    requires a <= b
    ensures a * a <= b * b && a * a * a <= b * b * b
  {
    assert b * b - a * a == (b - a) * (b + a);
    assert b * b * b - a * a * a == (b - a) * (b * b) + a * (b * b - a * a);
  }

  /** Round constant t is made of the first 64 bits of the fractional part of the cube root of the
      prime that has t primes below it: the cube root times 2^64 is r, cut off, and the constant is r
      without its integer part. */
  lemma {:induction false} RoundConstantIsCubeRoot(t: nat) returns (p: nat, r: nat)
    requires t < 80
    ensures Prime(p) && PrimesBelow(p) == t
    ensures CubeRoot(r, p * (TWO_64 * TWO_64 * TWO_64)) && RoundConstant(t) == r % TWO_64
  {
    p, r := NthPrime(t), RootRow(t / 8)[t % 8];
    NthPrimeIs(t);
    RowsAreDerived(t / 8, t % 8);
  }

  /** Likewise the initial hash value, with square roots. */
  lemma {:induction false} InitialHashIsSquareRoot(t: nat) returns (p: nat, r: nat)
    requires t < 8
    ensures Prime(p) && PrimesBelow(p) == t
    ensures SquareRoot(r, p * (TWO_64 * TWO_64)) && H0[t] == r % TWO_64
  {
    p, r := NthPrime(t), SquareRoots()[t];
    NthPrimeIs(t);
    Squares(t);
  }

  function SquareRoots(): (r: seq<nat>)
    ensures |r| == 8
  {
    [0x1_6a09e667f3bcc908, 0x1_bb67ae8584caa73b, 0x2_3c6ef372fe94f82b, 0x2_a54ff53a5f1d36f1,
     0x3_510e527fade682d1, 0x3_9b05688c2b3e6c1f, 0x4_1f83d9abfb41bd6b, 0x4_5be0cd19137e2179]
  }

  lemma {:induction false} Squares(t: nat)
    requires t < 8
    ensures SquareRoot(SquareRoots()[t], PrimeRow(0)[t] * TWO_128) && H0[t] == SquareRoots()[t] % TWO_64
  {
  }
}
