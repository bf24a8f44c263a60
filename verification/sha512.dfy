/** SHA-512 as the runtime computes it (wamr-pal/sha512_simple.c:16-209) and as FIPS 180-4 defines it
    (sections 4.1.3, 4.2.3, 5.1.2, 5.3.5 and 6.4.2).

    Words, bytes and lengths are numbers. */
module Sha512 {
  import opened Arith
  import opened Bits
  import opened Words

  const BLOCK_SIZE: nat := 128      // SHA512_BLOCK_SIZE
  const DIGEST_SIZE: nat := 64      // SHA512_DIGEST_SIZE

  // ----- section 4: functions and constants -----

  function Rotr(x: U64, n: nat): U64
    requires 0 < n < 64
  {
    Or(Shr(x, n), Shl(x, 64 - n))
  }

  function Ch(x: U64, y: U64, z: U64): U64 {
    Xor(And(x, y), And(Not(x), z))
  }

  function Maj(x: U64, y: U64, z: U64): U64 {
    Xor3(And(x, y), And(x, z), And(y, z))
  }

  function Xor3(x: U64, y: U64, z: U64): U64 {
    Xor(Xor(x, y), z)
  }

  function Sigma0(x: U64): U64 {
    Xor3(Rotr(x, 28), Rotr(x, 34), Rotr(x, 39))
  }

  function Sigma1(x: U64): U64 {
    Xor3(Rotr(x, 14), Rotr(x, 18), Rotr(x, 41))
  }

  function Gamma0(x: U64): U64 {
    Xor3(Rotr(x, 1), Rotr(x, 8), Shr(x, 7))
  }

  function Gamma1(x: U64): U64 {
    Xor3(Rotr(x, 19), Rotr(x, 61), Shr(x, 6))
  }

  // ----- ... and bit by bit, bit 0 being the least significant -----

  predicate OddBits(a: bool, b: bool, c: bool) {
    (a != b) != c
  }

  /** Rotating to the right by n puts bit i + n at bit i, in the ring of 64 bits. */
  lemma {:induction false} RotrBits(x: U64, n: nat, i: nat)
    requires 0 < n < 64 && i < 64
    ensures Bit(Rotr(x, n), i) <==> Bit(x, (i + n) % 64)
  {
    OrBits(Shr(x, n), Shl(x, 64 - n), i);
    ShrBits(x, n, i);
    ShlBits(x, 64 - n, i);
    ModIs(i + n, if i + n < 64 then 0 else 1, if i + n < 64 then i + n else i + n - 64, 64);
  }

  lemma {:induction false} Xor3Bits(x: U64, y: U64, z: U64, i: nat)
    requires i < 64
    ensures Bit(Xor3(x, y, z), i) <==> OddBits(Bit(x, i), Bit(y, i), Bit(z, i))
  {
    hide Bit, Xor;
    XorBits(Xor(x, y), z, i);
    XorBits(x, y, i);
  }

  /** Ch chooses each bit by the bit of x. */
  lemma {:induction false} ChBits(x: U64, y: U64, z: U64, i: nat)
    requires i < 64
    ensures Bit(Ch(x, y, z), i) <==> if Bit(x, i) then Bit(y, i) else Bit(z, i)
  {
    hide Bit, Xor, And, Not;
    XorBits(And(x, y), And(Not(x), z), i);
    AndBits(x, y, i);
    AndBits(Not(x), z, i);
    NotBits(x, i);
  }

  /** Maj has each bit that at least two of the words have. */
  lemma {:induction false} MajBits(x: U64, y: U64, z: U64, i: nat)
    requires i < 64
    ensures var a, b, c := Bit(x, i), Bit(y, i), Bit(z, i);
            Bit(Maj(x, y, z), i) <==> (a && b) || (a && c) || (b && c)
  {
    hide Bit, Xor3, And;
    Xor3Bits(And(x, y), And(x, z), And(y, z), i);
    AndBits(x, y, i);
    AndBits(x, z, i);
    AndBits(y, z, i);
  }

  lemma {:induction false} Sigma0Bits(x: U64, i: nat)
    requires i < 64
    ensures Bit(Sigma0(x), i) <==> OddBits(Bit(x, (i + 28) % 64), Bit(x, (i + 34) % 64), Bit(x, (i + 39) % 64))
  {
    hide Bit, Rotr, Shr, Xor3;
    Xor3Bits(Rotr(x, 28), Rotr(x, 34), Rotr(x, 39), i);
    RotrBits(x, 28, i);
    RotrBits(x, 34, i);
    RotrBits(x, 39, i);
  }

  lemma {:induction false} Sigma1Bits(x: U64, i: nat)
    requires i < 64
    ensures Bit(Sigma1(x), i) <==> OddBits(Bit(x, (i + 14) % 64), Bit(x, (i + 18) % 64), Bit(x, (i + 41) % 64))
  {
    hide Bit, Rotr, Shr, Xor3;
    Xor3Bits(Rotr(x, 14), Rotr(x, 18), Rotr(x, 41), i);
    RotrBits(x, 14, i);
    RotrBits(x, 18, i);
    RotrBits(x, 41, i);
  }

  lemma {:induction false} Gamma0Bits(x: U64, i: nat)
    requires i < 64
    ensures Bit(Gamma0(x), i) <==> OddBits(Bit(x, (i + 1) % 64), Bit(x, (i + 8) % 64), (i < 57 && Bit(x, i + 7)))
  {
    hide Bit, Rotr, Shr, Xor3;
    Xor3Bits(Rotr(x, 1), Rotr(x, 8), Shr(x, 7), i);
    RotrBits(x, 1, i);
    RotrBits(x, 8, i);
    ShrBits(x, 7, i);
  }

  lemma {:induction false} Gamma1Bits(x: U64, i: nat)
    requires i < 64
    ensures Bit(Gamma1(x), i) <==> OddBits(Bit(x, (i + 19) % 64), Bit(x, (i + 61) % 64), (i < 58 && Bit(x, i + 6)))
  {
    hide Bit, Rotr, Shr, Xor3;
    Xor3Bits(Rotr(x, 19), Rotr(x, 61), Shr(x, 6), i);
    RotrBits(x, 19, i);
    RotrBits(x, 61, i);
    ShrBits(x, 6, i);
  }

  // ----- constants -----

  /** The table K, in rows of eight. */
  function KRow(row: nat): (k: seq<U64>)
    requires row < 10
    ensures |k| == 8
  {
    match row
    case 0 => [
      0x428a2f98d728ae22, 0x7137449123ef65cd, 0xb5c0fbcfec4d3b2f, 0xe9b5dba58189dbbc,
      0x3956c25bf348b538, 0x59f111f1b605d019, 0x923f82a4af194f9b, 0xab1c5ed5da6d8118]
    case 1 => [
      0xd807aa98a3030242, 0x12835b0145706fbe, 0x243185be4ee4b28c, 0x550c7dc3d5ffb4e2,
      0x72be5d74f27b896f, 0x80deb1fe3b1696b1, 0x9bdc06a725c71235, 0xc19bf174cf692694]
    case 2 => [
      0xe49b69c19ef14ad2, 0xefbe4786384f25e3, 0x0fc19dc68b8cd5b5, 0x240ca1cc77ac9c65,
      0x2de92c6f592b0275, 0x4a7484aa6ea6e483, 0x5cb0a9dcbd41fbd4, 0x76f988da831153b5]
    case 3 => [
      0x983e5152ee66dfab, 0xa831c66d2db43210, 0xb00327c898fb213f, 0xbf597fc7beef0ee4,
      0xc6e00bf33da88fc2, 0xd5a79147930aa725, 0x06ca6351e003826f, 0x142929670a0e6e70]
    case 4 => [
      0x27b70a8546d22ffc, 0x2e1b21385c26c926, 0x4d2c6dfc5ac42aed, 0x53380d139d95b3df,
      0x650a73548baf63de, 0x766a0abb3c77b2a8, 0x81c2c92e47edaee6, 0x92722c851482353b]
    case 5 => [
      0xa2bfe8a14cf10364, 0xa81a664bbc423001, 0xc24b8b70d0f89791, 0xc76c51a30654be30,
      0xd192e819d6ef5218, 0xd69906245565a910, 0xf40e35855771202a, 0x106aa07032bbd1b8]
    case 6 => [
      0x19a4c116b8d2d0c8, 0x1e376c085141ab53, 0x2748774cdf8eeb99, 0x34b0bcb5e19b48a8,
      0x391c0cb3c5c95a63, 0x4ed8aa4ae3418acb, 0x5b9cca4f7763e373, 0x682e6ff3d6b2b8a3]
    case 7 => [
      0x748f82ee5defb2fc, 0x78a5636f43172f60, 0x84c87814a1f0ab72, 0x8cc702081a6439ec,
      0x90befffa23631e28, 0xa4506cebde82bde9, 0xbef9a3f7b2c67915, 0xc67178f2e372532b]
    case 8 => [
      0xca273eceea26619c, 0xd186b8c721c0c207, 0xeada7dd6cde0eb1e, 0xf57d4f7fee6ed178,
      0x06f067aa72176fba, 0x0a637dc5a2c898a6, 0x113f9804bef90dae, 0x1b710b35131c471b]
    case _ => [
      0x28db77f523047d84, 0x32caab7b40c72493, 0x3c9ebe0a15c9bebc, 0x431d67c49c100d4c,
      0x4cc5d4becb3e42b6, 0x597f299cfc657e2a, 0x5fcb6fab3ad6faec, 0x6c44198c4a475817]
  }

  function RoundConstant(t: nat): U64
    requires t < 80
  {
    KRow(t / 8)[t % 8]
  }

  const H0: seq<U64> := [
    0x6a09e667f3bcc908, 0xbb67ae8584caa73b, 0x3c6ef372fe94f82b, 0xa54ff53a5f1d36f1,
    0x510e527fade682d1, 0x9b05688c2b3e6c1f, 0x1f83d9abfb41bd6b, 0x5be0cd19137e2179
  ]

  // ----- big-endian numbers -----

  /** The n low bytes of v, the most significant first. */
  function BigEndian(v: nat, n: nat): (b: seq<Byte>)
    ensures |b| == n
  {
    if n == 0 then [] else BigEndian(v / 256, n - 1) + [v % 256]
  }

  function Number(b: seq<Byte>): nat {
    if b == [] then 0 else Number(b[..|b| - 1]) * 256 + b[|b| - 1]
  }

  lemma {:induction false} NumberBelow(b: seq<Byte>)
    ensures Number(b) < Pow(256, |b|)
  {
    if b != [] {
      NumberBelow(b[..|b| - 1]);
    }
  }

  /** Writing a number and reading it back, and reading bytes and writing them back. */
  lemma {:induction false} NumberOfBigEndian(v: nat, n: nat)
    requires v < Pow(256, n)
    ensures Number(BigEndian(v, n)) == v
  {
    if n > 0 {
      NumberOfBigEndian(v / 256, n - 1);
      assert BigEndian(v, n)[..n - 1] == BigEndian(v / 256, n - 1);
    }
  }

  lemma {:induction false} BigEndianOfNumber(b: seq<Byte>)
    ensures BigEndian(Number(b), |b|) == b
  {
    if b != [] {
      BigEndianOfNumber(b[..|b| - 1]);
      ModIs(Number(b), Number(b[..|b| - 1]), b[|b| - 1], 256);
    }
  }

  // ----- section 5.1.2: padding -----

  function Zeros(n: nat): (z: seq<Byte>)
    ensures |z| == n
  {
    if n == 0 then [] else Zeros(n - 1) + [0]
  }

  /** How many zero bytes follow the byte 0x80. */
  function ZeroCount(len: nat): nat {
    (239 - len % 128) % 128
  }

  /** It is the least number that leaves 16 bytes of the last block for the length. */
  lemma ZeroCountIsLeast(len: nat, k: nat)
    requires (len + 1 + k) % 128 == 112
    ensures ZeroCount(len) <= k && (len + 1 + ZeroCount(len)) % 128 == 112
  {
  }

  /** The message with a length field of 16 bytes. */
  function PaddedWith(m: seq<Byte>, length: seq<Byte>): (p: seq<Byte>)
    requires |length| == 16
    ensures |p| % 128 == 0 && |p| >= |m| + 17
  {
    m + [0x80] + Zeros(ZeroCount(|m|)) + length
  }

  function Padded(m: seq<Byte>): seq<Byte> {
    PaddedWith(m, BigEndian(8 * |m|, 16))
  }

  // ----- section 6.4.2: the hash computation -----

  /** The message schedule. */
  function Schedule(block: seq<Byte>, t: nat): U64
    requires |block| == BLOCK_SIZE
  {
    if t < 16 then WordAt(block, t)
    else NextWord(Schedule(block, t - 2), Schedule(block, t - 7), Schedule(block, t - 15), Schedule(block, t - 16))
  }

  function NextWord(w2: U64, w7: U64, w15: U64, w16: U64): U64 {
    Mod64(Gamma1(w2) + w7 + Gamma0(w15) + w16)
  }

  function WordAt(block: seq<Byte>, t: nat): U64
    requires 8 * t + 8 <= |block|
  {
    NumberBelow(block[8 * t..8 * t + 8]);
    PowersOf256();
    Number(block[8 * t..8 * t + 8])
  }

  function Mod64(x: nat): U64 {
    x % TWO_64
  }

  /** Adding in 64 bits again and again is adding modulo 2^64. */
  lemma {:induction false} PlusOfSums(x: nat, y: nat)
    ensures Plus(Mod64(x), Mod64(y)) == Mod64(x + y)
  {
    ModPlus(x, y % TWO_64, TWO_64);
    ModPlus(y, x, TWO_64);
  }

  lemma {:induction false} PlusFour(a: U64, b: U64, c: U64, d: U64)
    ensures Plus(Plus(Plus(a, b), c), d) == Mod64(a + b + c + d)
  {
    ModPlus(a + b, c, TWO_64);
    ModPlus(a + b + c, d, TWO_64);
  }

  lemma {:induction false} RoundSums(h: U64, s: U64, f: U64, k: U64, w: U64, s': U64, m: U64, d: U64)
    ensures var t1 := Plus(Plus(Plus(Plus(h, s), f), k), w);
            && Plus(t1, Plus(s', m)) == Mod64(h + s + f + k + w + (s' + m))
            && Plus(d, t1) == Mod64(d + (h + s + f + k + w))
  {
    var sum := h + s + f + k + w;
    PlusFour(h, s, f, k);
    ModPlus(h + s + f + k, w, TWO_64);
    PlusOfSums(sum, s' + m);
    ModPlus(sum, d, TWO_64);
  }

  datatype Vars = Vars(a: U64, b: U64, c: U64, d: U64, e: U64, f: U64, g: U64, h: U64)

  function Round(v: Vars, k: U64, w: U64): Vars {
    var t1 := v.h + Sigma1(v.e) + Ch(v.e, v.f, v.g) + k + w;
    var t2 := Sigma0(v.a) + Maj(v.a, v.b, v.c);
    Vars(Mod64(t1 + t2), v.a, v.b, v.c, Mod64(v.d + t1), v.e, v.f, v.g)
  }

  /** The working variables after t rounds. */
  function Rounds(v: Vars, block: seq<Byte>, t: nat): Vars
    requires |block| == BLOCK_SIZE && t <= 80
  {
    if t == 0 then v else Round(Rounds(v, block, t - 1), RoundConstant(t - 1), Schedule(block, t - 1))
  }

  function Start(h: seq<U64>): Vars
    requires |h| == 8
  {
    Vars(h[0], h[1], h[2], h[3], h[4], h[5], h[6], h[7])
  }

  function Sum(h: seq<U64>, v: Vars): (r: seq<U64>)
    requires |h| == 8
    ensures |r| == 8
  {
    [Mod64(h[0] + v.a), Mod64(h[1] + v.b), Mod64(h[2] + v.c), Mod64(h[3] + v.d),
     Mod64(h[4] + v.e), Mod64(h[5] + v.f), Mod64(h[6] + v.g), Mod64(h[7] + v.h)]
  }

  function Compress(h: seq<U64>, block: seq<Byte>): (r: seq<U64>)
    requires |h| == 8 && |block| == BLOCK_SIZE
    ensures |r| == 8
  {
    Sum(h, Rounds(Start(h), block, 80))
  }

  /** The blocks from position at on. */
  function From(p: seq<Byte>, at: nat): (r: seq<Byte>)
    requires |p| % 128 == 0 && at % 128 == 0 && at <= |p|
    ensures |r| % 128 == 0
  {
    BlocksLeft(|p|, at);
    p[at..]
  }

  lemma BlocksLeft(n: nat, at: nat)
    requires n % 128 == 0 && at % 128 == 0 && at <= n
    ensures (n - at) % 128 == 0
    ensures at < n ==> at + 128 <= n
  {
  }

  /** The hash value after all blocks. */
  function HashBlocks(h: seq<U64>, p: seq<Byte>): (r: seq<U64>)
    requires |h| == 8 && |p| % 128 == 0
    ensures |r| == 8
    decreases |p|
  {
    if p == [] then h else HashBlocks(Compress(h, p[..128]), From(p, 128))
  }

  function WordBytes(words: seq<U64>): (b: seq<Byte>)
    ensures |b| == 8 * |words|
  {
    if words == [] then [] else WordBytes(words[..|words| - 1]) + BigEndian(words[|words| - 1], 8)
  }

  /** SHA-512 of a message. */
  function Hash(m: seq<Byte>): seq<Byte> {
    WordBytes(HashBlocks(H0, Padded(m)))
  }

  // ----- the code -----

  /** store_be64 */
  method StoreBe64(dst: array<Byte>, at: nat, val: U64)
    requires at + 8 <= dst.Length
    modifies dst
    ensures dst[..] == old(dst[..at]) + BigEndian(val, 8) + old(dst[at + 8..])
  {
    BigEndianBytes(val);
    dst[at] := val / 0x100_0000_0000_0000 % 256;
    dst[at + 1] := val / 0x1_0000_0000_0000 % 256;
    dst[at + 2] := val / 0x100_0000_0000 % 256;
    dst[at + 3] := val / 0x1_0000_0000 % 256;
    dst[at + 4] := val / 0x100_0000 % 256;
    dst[at + 5] := val / 0x1_0000 % 256;
    dst[at + 6] := val / 0x100 % 256;
    dst[at + 7] := val % 256;
    assert dst[at..at + 8] == BigEndian(val, 8);
  }

  lemma {:induction false} BigEndianBytes(v: nat)
    ensures var b := BigEndian(v, 8);
            && b[0] == v / 0x100_0000_0000_0000 % 256 && b[1] == v / 0x1_0000_0000_0000 % 256
            && b[2] == v / 0x100_0000_0000 % 256 && b[3] == v / 0x1_0000_0000 % 256
            && b[4] == v / 0x100_0000 % 256 && b[5] == v / 0x1_0000 % 256
            && b[6] == v / 0x100 % 256 && b[7] == v % 256
  {
    BigEndianAt(v, 8, 0);
    BigEndianAt(v, 8, 1);
    BigEndianAt(v, 8, 2);
    BigEndianAt(v, 8, 3);
    BigEndianAt(v, 8, 4);
    BigEndianAt(v, 8, 5);
    BigEndianAt(v, 8, 6);
    BigEndianAt(v, 8, 7);
    PowersOf256();
  }

  lemma PowersOf256()
    ensures Pow(256, 0) == 1 && Pow(256, 1) == 0x100 && Pow(256, 2) == 0x1_0000 && Pow(256, 3) == 0x100_0000
    ensures Pow(256, 4) == 0x1_0000_0000 && Pow(256, 5) == 0x100_0000_0000 && Pow(256, 6) == 0x1_0000_0000_0000
    ensures Pow(256, 7) == 0x100_0000_0000_0000 && Pow(256, 8) == TWO_64
  {
  }

  lemma {:induction false} BigEndianAt(v: nat, n: nat, k: nat)
    requires k < n
    ensures Pow(256, k) > 0 && BigEndian(v, n)[n - 1 - k] == v / Pow(256, k) % 256
  {
    if k > 0 {
      BigEndianAt(v / 256, n - 1, k - 1);
      DivDiv(v, 256, Pow(256, k - 1));
    }
  }

  /** load_be64 */
  function LoadBe64(src: seq<Byte>, at: nat): (v: U64)
    requires at + 8 <= |src|
  {
    var b: seq<nat> := src[at..at + 8];
    b[0] * 0x100_0000_0000_0000 + b[1] * 0x1_0000_0000_0000 + b[2] * 0x100_0000_0000 + b[3] * 0x1_0000_0000
      + b[4] * 0x100_0000 + b[5] * 0x1_0000 + b[6] * 0x100 + b[7]
  }

  lemma LoadIsNumber(src: seq<Byte>, at: nat)
    requires at + 8 <= |src|
    ensures LoadBe64(src, at) == Number(src[at..at + 8])
  {
    var b := src[at..at + 8];
    assert b[..8] == b && b[..0] == [];
    NumberPrefix(b, 7);
    NumberPrefix(b, 6);
    NumberPrefix(b, 5);
    NumberPrefix(b, 4);
    NumberPrefix(b, 3);
    NumberPrefix(b, 2);
    NumberPrefix(b, 1);
    NumberPrefix(b, 0);
  }

  lemma {:induction false} NumberPrefix(b: seq<Byte>, k: nat)
    requires k < |b|
    ensures Number(b[..k + 1]) == Number(b[..k]) * 256 + b[k]
  {
    assert b[..k + 1][..k] == b[..k];
  }

  lemma {:induction false} WordOfBlock(src: seq<Byte>, at: nat, t: nat)
    requires at + BLOCK_SIZE <= |src| && t < 16
    ensures WordAt(src[at..at + BLOCK_SIZE], t) == LoadBe64(src, at + t * 8)
  {
    LoadIsNumber(src, at + t * 8);
    assert src[at..at + BLOCK_SIZE][8 * t..8 * t + 8] == src[at + t * 8..at + t * 8 + 8];
  }

  /** sha512_transform on the block at src[at..]. */
  method Transform(state: array<U64>, src: array<Byte>, at: nat)
    requires state.Length == 8 && at + BLOCK_SIZE <= src.Length
    modifies state
    ensures state[..] == Compress(old(state[..]), src[at..at + BLOCK_SIZE])
  {
    var w := new U64[80];
    PrepareSchedule(w, src[..], at);
    var v := RunRounds(Start(state[..]), w, src[..][at..at + BLOCK_SIZE]);
    assert src[..][at..at + BLOCK_SIZE] == src[at..at + BLOCK_SIZE];
    AddTo(state, v);
  }

  method RunRounds(start: Vars, w: array<U64>, ghost block: seq<Byte>) returns (v: Vars)
    requires w.Length == 80 && |block| == BLOCK_SIZE
    requires forall k :: 0 <= k < 80 ==> w[k] == Schedule(block, k)
    ensures v == Rounds(start, block, 80)
  {
    hide Rounds, RoundConstant, Schedule;
    v := start;
    var t := 0;
    RoundsStart(start, block);
    while t < 80
      invariant 0 <= t <= 80 && v == Rounds(start, block, t)
    {
      RoundsStep(start, block, t);
      v := OneRound(v, RoundConstant(t), w[t]);
      t := t + 1;
    }
  }

  lemma {:induction false} RoundsStart(v: Vars, block: seq<Byte>)
    requires |block| == BLOCK_SIZE
    ensures Rounds(v, block, 0) == v
  {
  }

  lemma {:induction false} RoundsStep(v: Vars, block: seq<Byte>, t: nat)
    requires |block| == BLOCK_SIZE && t < 80
    ensures Rounds(v, block, t + 1) == Round(Rounds(v, block, t), RoundConstant(t), Schedule(block, t))
  {
    hide Round, RoundConstant, Schedule;
  }

  /** The body of the loop over the rounds. */
  method OneRound(v: Vars, k: U64, w: U64) returns (r: Vars)
    ensures r == Round(v, k, w)
  {
    hide Sigma0, Sigma1, Ch, Maj, Plus, Mod64;
    var a, b, c, d, e, f, g, h := v.a, v.b, v.c, v.d, v.e, v.f, v.g, v.h;
    var t1 := Plus(Plus(Plus(Plus(h, Sigma1(e)), Ch(e, f, g)), k), w);
    var t2 := Plus(Sigma0(a), Maj(a, b, c));
    RoundSums(h, Sigma1(e), Ch(e, f, g), k, w, Sigma0(a), Maj(a, b, c), d);
    h := g;
    g := f;
    f := e;
    e := Plus(d, t1);
    d := c;
    c := b;
    b := a;
    a := Plus(t1, t2);
    r := Vars(a, b, c, d, e, f, g, h);
  }

  method AddTo(state: array<U64>, v: Vars)
    requires state.Length == 8
    modifies state
    ensures state[..] == Sum(old(state[..]), v)
  {
    state[0], state[1], state[2], state[3], state[4], state[5], state[6], state[7] :=
      Plus(state[0], v.a), Plus(state[1], v.b), Plus(state[2], v.c), Plus(state[3], v.d),
      Plus(state[4], v.e), Plus(state[5], v.f), Plus(state[6], v.g), Plus(state[7], v.h);
  }

  method PrepareSchedule(w: array<U64>, src: seq<Byte>, at: nat)
    requires w.Length == 80 && at + BLOCK_SIZE <= |src|
    modifies w
    ensures forall k :: 0 <= k < 80 ==> w[k] == Schedule(src[at..at + BLOCK_SIZE], k)
  {
    hide Plus, Gamma0, Gamma1, Number, LoadBe64, WordAt;
    ghost var block := src[at..at + BLOCK_SIZE];
    var t := 0;
    while t < 16
      invariant 0 <= t <= 16
      invariant forall k :: 0 <= k < t ==> w[k] == Schedule(block, k)
    {
      WordOfBlock(src, at, t);
      w[t] := LoadBe64(src, at + t * 8);
      t := t + 1;
    }
    while t < 80
      invariant 16 <= t <= 80
      invariant forall k :: 0 <= k < t ==> w[k] == Schedule(block, k)
    {
      PlusFour(Gamma1(w[t - 2]), w[t - 7], Gamma0(w[t - 15]), w[t - 16]);
      w[t] := Plus(Plus(Plus(Gamma1(w[t - 2]), w[t - 7]), Gamma0(w[t - 15])), w[t - 16]);
      t := t + 1;
    }
  }

  /** The length field as it is written: the high half is always zero, the low half has 64 bits. */
  function LengthField(len: nat): (b: seq<Byte>)
    ensures |b| == 16
  {
    BigEndian(0, 8) + BigEndian(8 * len % TWO_64, 8)
  }

  lemma {:induction false} BigEndianHalves(v: nat, q: nat, m: nat, n: nat)
    requires Pow(256, n) > 0 && q == v / Pow(256, n)
    ensures BigEndian(v, m + n) == BigEndian(q, m) + BigEndian(v, n)
  {
    if n > 0 {
      DivDiv(v, 256, Pow(256, n - 1));
      BigEndianHalves(v / 256, q, m, n - 1);
      assert BigEndian(v, m + n) == BigEndian(v / 256, m + (n - 1)) + [v % 256];
    } else {
      assert Pow(256, 0) == 1 && q == v;
    }
  }

  /** Only the number modulo 256^n matters. */
  lemma {:induction false} BigEndianLow(x: nat, q: nat, n: nat)
    ensures BigEndian(Pow(256, n) * q + x, n) == BigEndian(x, n)
  {
    if n > 0 {
      var y := Pow(256, n - 1) * q;
      assert Pow(256, n) * q == 256 * y;
      ModIs(256 * y + x, y + x / 256, x % 256, 256);
      BigEndianLow(x / 256, q, n - 1);
    }
  }

  lemma {:induction false} SixteenBytes(n: nat)
    ensures BigEndian(n, 16) == BigEndian(n / TWO_64, 8) + BigEndian(n % TWO_64, 8)
  {
    hide BigEndian, Number;
    PowersOf256();
    BigEndianHalves(n, n / TWO_64, 8, 8);
    BigEndianLow(n % TWO_64, n / TWO_64, 8);
  }

  lemma {:induction false} SameHighHalf(q: nat, low: seq<Byte>)
    requires q < TWO_64
    ensures BigEndian(0, 8) + low == BigEndian(q, 8) + low <==> q == 0
  {
    hide BigEndian, Number;
    PowersOf256();
    NumberOfBigEndian(q, 8);
    NumberOfBigEndian(0, 8);
    assert (BigEndian(0, 8) + low)[..8] == BigEndian(0, 8) && (BigEndian(q, 8) + low)[..8] == BigEndian(q, 8);
  }

  /** The field is that of section 5.1.2 exactly for messages of less than 2^61 bytes. */
  lemma {:induction false} LengthFieldExact(len: nat)
    requires len < TWO_64
    ensures LengthField(len) == BigEndian(8 * len, 16) <==> len < 0x2000_0000_0000_0000
  {
    hide BigEndian;
    SixteenBytes(8 * len);
    SameHighHalf(8 * len / TWO_64, BigEndian(8 * len % TWO_64, 8));
  }

  lemma {:induction false} ZerosAre(n: nat)
    ensures forall k :: 0 <= k < n ==> Zeros(n)[k] == 0
  {
    if n > 0 {
      ZerosAre(n - 1);
    }
  }

  /** The message from at on, the byte 0x80, and zeros to the end of the block. */
  function LastBytes(m: seq<Byte>, at: nat): (b: seq<Byte>)
    requires at <= |m| < at + BLOCK_SIZE
    ensures |b| == BLOCK_SIZE
  {
    m[at..] + [0x80] + Zeros(127 - (|m| - at))
  }

  lemma {:induction false} OneBlock(m: seq<Byte>, at: nat, length: seq<Byte>)
    requires at % 128 == 0 && at <= |m| < at + 112 && |length| == 16
    ensures PaddedWith(m, length)[at..] == LastBytes(m, at)[..112] + length
  {
    ZerosAre(ZeroCount(|m|));
    ZerosAre(127 - (|m| - at));
    assert ZeroCount(|m|) == 111 - (|m| - at);
  }

  lemma {:induction false} TwoBlocks(m: seq<Byte>, at: nat, length: seq<Byte>)
    requires at % 128 == 0 && at + 112 <= |m| < at + 128 && |length| == 16
    ensures PaddedWith(m, length)[at..] == LastBytes(m, at) + (Zeros(112) + length)
  {
    ZerosAre(ZeroCount(|m|));
    ZerosAre(127 - (|m| - at));
    ZerosAre(112);
    assert ZeroCount(|m|) == 239 - (|m| - at);
  }

  lemma {:induction false} NextBlock(h: seq<U64>, p: seq<Byte>, at: nat)
    requires |h| == 8 && |p| % 128 == 0 && at % 128 == 0 && at + 128 <= |p|
    ensures HashBlocks(h, From(p, at)) == HashBlocks(Compress(h, p[at..at + 128]), From(p, at + 128))
  {
    hide Compress;
    assert From(p, at)[..128] == p[at..at + 128] && From(From(p, at), 128) == From(p, at + 128);
  }

  /** sha512_simple: for every message of less than 2^61 bytes the digest is that of FIPS 180-4; for a
      longer one it is that of the same message with the length field LengthField. */
  method Simple(data: array<Byte>, digest: array<Byte>)
    requires data.Length < TWO_64 && digest.Length == DIGEST_SIZE
    modifies digest
    ensures digest[..] == WordBytes(HashBlocks(H0, PaddedWith(old(data[..]), LengthField(data.Length))))
    ensures data.Length < 0x2000_0000_0000_0000 ==> digest[..] == Hash(old(data[..]))
  {
    hide Compress, PaddedWith, HashBlocks, LengthField, H0, WordBytes;
    var state := new U64[8];
    InitState(state);
    var src := WholeBlocks(state, data, LengthField(data.Length));
    Finish(state, data, src);
    PutDigest(digest, state);
    LengthFieldExact(data.Length);
    assert data.Length < 0x2000_0000_0000_0000 ==>
        PaddedWith(old(data[..]), LengthField(data.Length)) == Padded(old(data[..]));
  }

  /** The loop over the blocks that lie in the message. */
  method WholeBlocks(state: array<U64>, data: array<Byte>, ghost length: seq<Byte>) returns (src: nat)
    requires state.Length == 8 && |length| == 16
    modifies state
    ensures src % 128 == 0 && src <= data.Length < src + BLOCK_SIZE
    ensures HashBlocks(state[..], From(PaddedWith(data[..], length), src))
              == HashBlocks(old(state[..]), PaddedWith(data[..], length))
  {
    hide Compress, PaddedWith, HashBlocks;
    ghost var m := data[..];
    ghost var p := PaddedWith(m, length);
    var remaining := data.Length;
    src := 0;
    assert From(p, 0) == p;
    while remaining >= BLOCK_SIZE
      invariant 0 <= remaining && src + remaining == data.Length && src % 128 == 0 && data[..] == m
      invariant HashBlocks(state[..], From(p, src)) == HashBlocks(old(state[..]), p)
    {
      WholeBlock(m, length, src);
      NextBlock(state[..], p, src);
      assert data[src..src + 128] == m[src..src + 128];
      Transform(state, data, src);
      src := src + BLOCK_SIZE;
      remaining := remaining - BLOCK_SIZE;
    }
  }

  lemma {:induction false} WholeBlock(m: seq<Byte>, length: seq<Byte>, at: nat)
    requires |length| == 16 && at + 128 <= |m|
    ensures at + 128 <= |PaddedWith(m, length)|
    ensures PaddedWith(m, length)[at..at + 128] == m[at..at + 128]
  {
  }

  method InitState(state: array<U64>)
    requires state.Length == 8
    modifies state
    ensures state[..] == H0
  {
    var i := 0;
    while i < 8
      invariant 0 <= i <= 8 && state[..i] == H0[..i]
    {
      state[i] := H0[i];
      i := i + 1;
    }
    assert state[..] == state[..8] == H0[..8] == H0;
  }

  /** The padding of the rest of the message, one block or two. */
  method Finish(state: array<U64>, data: array<Byte>, src: nat)
    requires state.Length == 8 && data.Length < TWO_64
    requires src % 128 == 0 && src <= data.Length < src + BLOCK_SIZE
    modifies state
    ensures state[..] == HashBlocks(old(state[..]), From(PaddedWith(old(data[..]), LengthField(data.Length)), src))
  {
    hide Compress, HashBlocks, PaddedWith, LastBytes, LengthField, Tail;
    TailIsPadding(data[..], src, LengthField(data.Length));
    var block := new Byte[BLOCK_SIZE];
    FillBlock(block, data, src);
    LastBlocks(state, block, data.Length, data.Length - src >= 112);
  }

  /** What follows a block filled up with zeros: a second block, or just the length in place of zeros. */
  function Tail(block: seq<Byte>, length: seq<Byte>, second: bool): (t: seq<Byte>)
    requires |block| == BLOCK_SIZE && |length| == 16
    ensures |t| % 128 == 0
  {
    if second then block + (Zeros(112) + length) else block[..112] + length
  }

  lemma {:induction false} TailIsPadding(m: seq<Byte>, at: nat, length: seq<Byte>)
    requires at % 128 == 0 && at <= |m| < at + BLOCK_SIZE && |length| == 16
    ensures From(PaddedWith(m, length), at) == Tail(LastBytes(m, at), length, |m| - at >= 112)
  {
    if |m| - at >= 112 {
      TwoBlocks(m, at, length);
    } else {
      OneBlock(m, at, length);
    }
  }

  method LastBlocks(state: array<U64>, block: array<Byte>, len: nat, second: bool)
    requires state.Length == 8 && block.Length == BLOCK_SIZE && len < TWO_64
    modifies state, block
    ensures state[..] == HashBlocks(old(state[..]), Tail(old(block[..]), LengthField(len), second))
  {
    hide Compress, HashBlocks, LengthField, Zeros;
    if second {
      LastTwo(state, block, len);
    } else {
      LastOne(state, block, len);
    }
  }

  method LastOne(state: array<U64>, block: array<Byte>, len: nat)
    requires state.Length == 8 && block.Length == BLOCK_SIZE && len < TWO_64
    modifies state, block
    ensures state[..] == HashBlocks(old(state[..]), old(block[..])[..112] + LengthField(len))
  {
    hide Compress, HashBlocks;
    ghost var h, tail := state[..], block[..][..112] + LengthField(len);
    PutLength(block, len);
    assert block[..] == tail;
    OneStep(h, tail);
    Transform(state, block, 0);
  }

  method LastTwo(state: array<U64>, block: array<Byte>, len: nat)
    requires state.Length == 8 && block.Length == BLOCK_SIZE && len < TWO_64
    modifies state, block
    ensures state[..] == HashBlocks(old(state[..]), old(block[..]) + (Zeros(112) + LengthField(len)))
  {
    hide Compress, HashBlocks;
    ghost var h, first, second := state[..], block[..], Zeros(112) + LengthField(len);
    Transform(state, block, 0);
    assert first[0..128] == first == block[0..128];
    ClearBlock(block);
    PutLength(block, len);
    assert block[..] == second;
    TwoSteps(h, first, second);
    Transform(state, block, 0);
  }

  lemma {:induction false} OneStep(h: seq<U64>, b: seq<Byte>)
    requires |h| == 8 && |b| == 128
    ensures HashBlocks(h, b) == Compress(h, b)
    ensures b[0..128] == b
  {
    hide Compress;
    assert b[..128] == b && From(b, 128) == [];
  }

  lemma {:induction false} TwoSteps(h: seq<U64>, b: seq<Byte>, c: seq<Byte>)
    requires |h| == 8 && |b| == |c| == 128
    ensures HashBlocks(h, b + c) == Compress(Compress(h, b), c)
    ensures b[0..128] == b && c[0..128] == c
  {
    hide Compress;
    assert (b + c)[..128] == b && From(b + c, 128) == c;
    OneStep(Compress(h, b), c);
  }

  method FillBlock(block: array<Byte>, data: array<Byte>, src: nat)
    requires block.Length == BLOCK_SIZE && block != data && src <= data.Length < src + BLOCK_SIZE
    modifies block
    ensures block[..] == LastBytes(data[..], src)
  {
    var remaining := data.Length - src;
    var i := 0;
    while i < remaining
      invariant 0 <= i <= remaining && block[..i] == data[src..src + i]
    {
      block[i] := data[src + i];
      i := i + 1;
    }
    block[remaining] := 0x80;
    i := remaining + 1;
    ZerosAre(127 - remaining);
    while i < BLOCK_SIZE
      invariant remaining < i <= BLOCK_SIZE
      invariant block[..remaining] == data[src..] && block[remaining] == 0x80
      invariant forall k :: remaining < k < i ==> block[k] == 0
    {
      block[i] := 0;
      i := i + 1;
    }
  }

  method ClearBlock(block: array<Byte>)
    requires block.Length == BLOCK_SIZE
    modifies block
    ensures block[..112] == Zeros(112)
  {
    var i := 0;
    while i < BLOCK_SIZE
      invariant 0 <= i <= BLOCK_SIZE && forall k :: 0 <= k < i ==> block[k] == 0
    {
      block[i] := 0;
      i := i + 1;
    }
    ZerosAre(112);
  }

  method PutLength(block: array<Byte>, len: nat)
    requires block.Length == BLOCK_SIZE && len < TWO_64
    modifies block
    ensures block[..] == old(block[..112]) + LengthField(len)
  {
    StoreBe64(block, 112, 0);
    StoreBe64(block, 120, 8 * len % TWO_64);
  }

  /** The digest is the state, word by word. */
  method PutDigest(digest: array<Byte>, state: array<U64>)
    requires state.Length == 8 && digest.Length == DIGEST_SIZE
    modifies digest
    ensures digest[..] == WordBytes(state[..])
  {
    var i := 0;
    while i < 8
      invariant 0 <= i <= 8 && digest[..8 * i] == WordBytes(state[..i])
    {
      StoreBe64(digest, i * 8, state[i]);
      assert state[..i + 1][..i] == state[..i];
      i := i + 1;
    }
    assert state[..8] == state[..] && digest[..64] == digest[..];
  }
}
