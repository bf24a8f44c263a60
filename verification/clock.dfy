/** From kvmclock to the Hyper-V reference time (host/kvm/hyperv.c:568-585, 1074-1141).

    The guest and get_time_ref_counter compute tsc * scale / 2^64 + offset in 64 bits; scale and offset
    come from kvmclock's multiplier, shift and base.  Reference time counts 100 ns. */
module Clock {
  import opened Arith

  /** struct pvclock_vcpu_time_info; shifts beyond these make C's shift counts undefined. */
  datatype PvClock = PvClock(stable: bool, mul: U32, shift: int, systemTime: U64, tscTimestamp: U64)

  predicate ValidShift(c: PvClock) {
    -31 <= c.shift <= 31
  }

  class TscReference {
    var scale: U64
    var offset: U64

    /** compute_tsc_page_parameters */
    method Compute(c: PvClock) returns (ok: bool)
      requires ValidShift(c)
      modifies this
      ensures ok <==> c.stable && c.shift >= -29 && Scale(c) < TWO_64
      ensures ok ==> scale == Scale(c) && offset == Offset(c)
      ensures !ok ==> scale == old(scale) && offset == old(offset)
    {
      if !c.stable {
        return false;
      }
      TestIsExact(c);
      var maxMul := MaxMul(c);
      if c.mul >= maxMul {
        return false;
      }
      scale := Pow(2, 32 + c.shift) * c.mul / 100;
      var base := c.systemTime / 100;
      offset := (base - Shr64(c.tscTimestamp, scale)) % TWO_64;
      return true;
    }
  }

  /** The shift is done in 64 bits. */
  function MaxMul(c: PvClock): U64
    requires ValidShift(c)
  {
    100 * Pow(2, 32 - c.shift) % TWO_64
  }

  /** The scale, in as many bits as it needs. */
  function Scale(c: PvClock): nat
    requires ValidShift(c)
  {
    Pow(2, 32 + c.shift) * c.mul / 100
  }

  /** mul_u64_u64_shr(a, b, 64) */
  function Shr64(a: U64, b: U64): (r: U64)
    ensures r * TWO_64 <= a * b < r * TWO_64 + TWO_64
  {
    MulBelow(a, b, TWO_64);
    a * b / TWO_64
  }

  lemma MulBelow(a: nat, b: nat, m: nat)
    requires a < m && b < m
    ensures 0 <= a * b < m * m
  {
    assert m * m - m * b == m * (m - b);
    MulSign(m, m - b);
    if b > 0 {
      assert m * b - a * b == b * (m - a);
      MulSign(b, m - a);
    }
    if a > 0 && b > 0 {
      MulSign(a, b);
    }
  }

  function Offset(c: PvClock): U64
    requires ValidShift(c) && Scale(c) < TWO_64
  {
    (c.systemTime / 100 - Shr64(c.tscTimestamp, Scale(c))) % TWO_64
  }

  /** What the guest reads, and get_time_ref_counter returns while the page is set. */
  function ReferenceTime(tsc: U64, scale: U64, offset: U64): U64 {
    (Shr64(tsc, scale) + offset) % TWO_64
  }

  // ----- the test for overflow -----

  lemma MaxMulValue(c: PvClock)
    requires ValidShift(c)
    ensures -25 <= c.shift ==> MaxMul(c) == 100 * Pow(2, 32 - c.shift)
    ensures -29 <= c.shift <= -25 ==> MaxMul(c) >= 0x1_0000_0000
    ensures c.shift < -29 ==> MaxMul(c) == 0
  {
    HighPowers();
    if -25 <= c.shift {
      PowersGrow(32 - c.shift, 57);
    }
  }

  lemma HighPowers()
    ensures Pow(2, 57) == 0x200_0000_0000_0000 && Pow(2, 58) == 0x400_0000_0000_0000
    ensures Pow(2, 59) == 0x800_0000_0000_0000 && Pow(2, 60) == 0x1000_0000_0000_0000
    ensures Pow(2, 61) == 0x2000_0000_0000_0000 && Pow(2, 62) == 0x4000_0000_0000_0000
    ensures Pow(2, 63) == 0x8000_0000_0000_0000
  {
    Pow64();
    assert Pow(2, 64) == 128 * Pow(2, 57);
  }

  lemma {:induction false} PowersGrow(a: nat, b: nat)
    requires a <= b
    ensures Pow(2, a) <= Pow(2, b)
  {
    if a < b {
      PowersGrow(a, b - 1);
    }
  }

  /** The comparison accepts exactly the clocks whose scale fits in 64 bits, for shifts from -29 up;
      for shifts of -30 and -31 the limit itself overflows to 0 and every clock is refused. */
  lemma TestIsExact(c: PvClock)
    requires ValidShift(c)
    ensures c.mul < MaxMul(c) <==> c.shift >= -29 && Scale(c) < TWO_64
    ensures c.shift < -29 ==> Scale(c) < TWO_64
  {
    MaxMulValue(c);
    var p, q := Pow(2, 32 + c.shift), Pow(2, 32 - c.shift);
    Pow2Add(32 + c.shift, 32 - c.shift);
    Pow64();
    ScaleFits(p, q, c.mul);
    if c.shift <= -25 {
      PowersGrow(32 + c.shift, 7);
      assert Pow(2, 7) == 128;
      assert p * c.mul <= 128 * c.mul;
    }
  }

  /** p * mul / 100 < p * q exactly if mul < 100 * q. */
  lemma ScaleFits(p: nat, q: nat, mul: nat)
    requires p > 0 && p * q == TWO_64
    ensures p * mul / 100 < TWO_64 <==> mul < 100 * q
  {
    if mul < 100 * q {
      assert p * mul <= p * (100 * q - 1);
      assert p * (100 * q - 1) == 100 * TWO_64 - p;
    } else {
      assert p * mul >= p * (100 * q);
      assert p * (100 * q) == 100 * TWO_64;
    }
  }

  // ----- the error -----

  /** The reference time before it is cut to 64 bits. */
  function Unbounded(c: PvClock, tsc: U64): int
    requires ValidShift(c) && Scale(c) < TWO_64
  {
    Shr64(tsc, Scale(c)) - Shr64(c.tscTimestamp, Scale(c)) + c.systemTime / 100
  }

  /** 100 * 2^64 times the exact kvmclock time in units of 100 ns. */
  function ExactScaled(c: PvClock, tsc: U64): int
    requires ValidShift(c)
  {
    (tsc - c.tscTimestamp) * (Pow(2, 32 + c.shift) * c.mul) + c.systemTime * TWO_64
  }

  /** What is computed is the unbounded value modulo 2^64. */
  lemma {:induction false} ReferenceTimeIsUnbounded(c: PvClock, tsc: U64)
    requires ValidShift(c) && Scale(c) < TWO_64
    ensures ReferenceTime(tsc, Scale(c), Offset(c)) == Unbounded(c, tsc) % TWO_64
  {
    ModPlus(c.systemTime / 100 - Shr64(c.tscTimestamp, Scale(c)), Shr64(tsc, Scale(c)), TWO_64);
  }

  /** The three roundings, with d ticks of exact scale e / 100. */
  lemma {:induction false} Roundings(d: int, e: nat, scale: nat, a: int, b: int, qa: int, qb: int, t: nat)
    requires 0 <= d < TWO_64 && scale == e / 100 && a - b == d * scale
    requires qa * TWO_64 <= a < qa * TWO_64 + TWO_64
    requires qb * TWO_64 <= b < qb * TWO_64 + TWO_64
    ensures 100 * TWO_64 * (qa - qb + t / 100) < d * e + t * TWO_64 + 100 * TWO_64
    ensures 100 * TWO_64 * (qa - qb + t / 100) > d * e + t * TWO_64 - 300 * TWO_64
  {
    var r := e % 100;
    assert d * e == 100 * (d * scale) + d * r by {
      assert e == 100 * scale + r;
    }
    assert 0 <= d * r <= 99 * d;
  }

  lemma {:induction false} UnboundedIsClose(c: PvClock, tsc: U64)
    requires ValidShift(c) && Scale(c) < TWO_64 && tsc >= c.tscTimestamp
    ensures 0 <= Unbounded(c, tsc)
    ensures 100 * TWO_64 * (Unbounded(c, tsc) - 1) < ExactScaled(c, tsc) < 100 * TWO_64 * (Unbounded(c, tsc) + 3)
  {
    var s, d := Scale(c), tsc - c.tscTimestamp;
    assert tsc * s - c.tscTimestamp * s == d * s;
    Roundings(d, Pow(2, 32 + c.shift) * c.mul, s, tsc * s, c.tscTimestamp * s,
              Shr64(tsc, s), Shr64(c.tscTimestamp, s), c.systemTime);
    assert d * s >= 0;
  }

  const SCALED: real := 1844674407370955161600.0     // 100 * 2^64

  /** The exact kvmclock time in units of 100 ns. */
  function Exact(c: PvClock, tsc: U64): real
    requires ValidShift(c)
  {
    ExactScaled(c, tsc) as real / SCALED
  }

  /** The conversion is less than 3 units behind and less than 1 unit ahead of the exact time, exactly
      if the unbounded value fits in 64 bits; it does for the next 58000 years. */
  lemma {:induction false} ErrorBound(c: PvClock, tsc: U64)
    requires ValidShift(c) && Scale(c) < TWO_64 && tsc >= c.tscTimestamp
    ensures var r := ReferenceTime(tsc, Scale(c), Offset(c)) as real;
            Exact(c, tsc) - 3.0 < r < Exact(c, tsc) + 1.0 <==> Unbounded(c, tsc) < TWO_64
  {
    ReferenceTimeIsUnbounded(c, tsc);
    UnboundedIsClose(c, tsc);
    var u := Unbounded(c, tsc);
    InReals(u, ExactScaled(c, tsc));
    if u < TWO_64 {
      ModIs(u, 0, u, TWO_64);
    } else {
      assert u % TWO_64 <= u - TWO_64;
    }
  }

  lemma InReals(u: int, x: int)
    requires 100 * TWO_64 * (u - 1) < x < 100 * TWO_64 * (u + 3)
    ensures x as real / SCALED - 3.0 < u as real < x as real / SCALED + 1.0
  {
  }
}
