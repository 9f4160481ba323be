/** Fixed-point time conversion: util/read_reg.h and TscToPerfTime of pmu/spe.cpp. Both scale a 64-bit
    counter by mult / 2^shift without 128-bit arithmetic. */
module FixedPoint {
  import opened Words

  /** The exact scaled value. */
  function Scaled(a: nat, mult: nat, shift: nat): int { a * mult / Pow2(shift) }

  function MulU32U32(a: u32, b: u32): (r: u64) {
    ProductFits(a, b, TWO32, TWO32);
    a * b
  }

  function MulU64U32Shr(a: u64, mult: u32, shift: nat): u64
    requires shift <= 32
  {
    var ah, al := HighHalf(a), LowHalf(a);
    QuotientFits(MulU32U32(al, mult), Pow2(shift));
    var ret := MulU32U32(al, mult) / Pow2(shift);
    if ah != 0 then Add64(ret, Wrap64(MulU32U32(ah, mult) * Pow2(32 - shift))) else ret
  }

  /** timeZero + quot * timeMult + ((rem * timeMult) >> timeShift), each product in 64 bits. */
  function TscToPerfTime(cyc: u64, zero: u64, mult: u32, shift: nat): u64
    requires shift < 64
  {
    var quot, rem := cyc / Pow2(shift), BitAnd(cyc, Pow2(shift) - 1);
    Wrap64(zero + quot * mult + Wrap64(rem * mult) / Pow2(shift))
  }

  function HighHalf(a: u64): u32 { a / TWO32 }
  function LowHalf(a: u64): u32 { a % TWO32 }

  // ----- Arithmetic -----

  lemma MulMonotone(a: int, b: int, c: int)
    requires a <= b && 0 <= c
    ensures a * c <= b * c
  {
    assert (b - a) * c >= 0;
  }

  lemma ProductFits(a: nat, b: nat, m: nat, n: nat)
    requires a < m && b < n
    ensures 0 <= a * b < m * n
  {
    MulMonotone(0, a, b);
    MulMonotone(a, m - 1, b);
    MulMonotone(b, n, m - 1);
    assert (m - 1) * b == b * (m - 1) && n * (m - 1) == m * n - n;
  }

  lemma QuotientFits(x: nat, d: nat)
    requires d > 0
    ensures 0 <= x / d <= x
  {
    var q := x / d;
    MulMonotone(1, d, q);
    assert x == d * q + x % d;
  }

  /** A multiple of the divisor passes through a division. */
  lemma DivOfSum(q: int, d: int, y: int)
    requires d > 0
    ensures (d * q + y) / d == q + y / d
  {
    assert y == d * (y / d) + y % d;
    assert d * q + d * (y / d) == d * (q + y / d);
    RemainderUnique(d * q + y, d, q + y / d, y % d);
  }

  lemma DivMonotone(x: nat, y: nat, d: nat)
    requires d > 0 && x <= y
    ensures x / d <= y / d
  {
    QuotientsOrdered(d, x / d, x % d, y / d, y % d);
  }

  lemma QuotientsOrdered(d: int, p: int, s: int, q: int, r: int)
    requires d > 0 && 0 <= s && r < d && d * p + s <= d * q + r
    ensures p <= q
  {
    assert p >= q + 1 ==> d * p >= d * (q + 1);
  }

  lemma ScaledMonotone(a: nat, b: nat, mult: nat, shift: nat)
    requires a <= b
    ensures 0 <= Scaled(a, mult, shift) <= Scaled(b, mult, shift)
  {
    MulMonotone(0, a, mult);
    MulMonotone(a, b, mult);
    QuotientFits(a * mult, Pow2(shift));
    DivMonotone(a * mult, b * mult, Pow2(shift));
  }

  lemma Distribute(a: int, p: int, q: int, b: int, m: int)
    ensures (a * (p * q) + b) * m == p * (a * m * q) + b * m
  {
    assert (a * (p * q) + b) * m == a * (p * q) * m + b * m;
    assert a * (p * q) * m == p * (a * m * q);
  }

  // ----- MulU64U32Shr -----

  /** The high half contributes a whole number of units, the low half the rest. */
  lemma ScaledSplits(a: u64, mult: u32, shift: nat)
    requires shift <= 32
    ensures Scaled(a, mult, shift)
            == HighHalf(a) * mult * Pow2(32 - shift) + LowHalf(a) * mult / Pow2(shift)
  {
    var ah, al, p, q := HighHalf(a), LowHalf(a), Pow2(shift), Pow2(32 - shift);
    Pow2Add(shift, 32 - shift);
    Pow2Known();
    Distribute(ah, p, q, al, mult);
    DivOfSum(ah * mult * q, p, al * mult);
  }

  /** For every counter and multiplier the result is floor(a * mult / 2^shift) modulo 2^64. */
  lemma MulShrIsScaled(a: u64, mult: u32, shift: nat)
    requires shift <= 32
    ensures MulU64U32Shr(a, mult, shift) == Wrap64(Scaled(a, mult, shift))
  {
    hide Scaled, Pow2, Wrap64, Add64, HighHalf, LowHalf;
    ScaledSplits(a, mult, shift);
    var low := MulU32U32(LowHalf(a), mult) / Pow2(shift);
    var high := MulU32U32(HighHalf(a), mult) * Pow2(32 - shift);
    QuotientFits(MulU32U32(LowHalf(a), mult), Pow2(shift));
    AddWrapped(low, high);
    if HighHalf(a) == 0 {
      NoHighHalf(mult, Pow2(32 - shift));
    }
  }

  lemma AddWrapped(low: u64, high: nat)
    ensures Add64(low, Wrap64(high)) == Wrap64(low + high) && Wrap64(low) == low
  {
    CongWrap(high);
    CongRefl(low);
    CongSum(low, low, Wrap64(high), high);
    CongIsSameWord(low + Wrap64(high), low + high);
    RemainderUnique(low, TWO64, 0, low);
  }

  lemma NoHighHalf(mult: u32, p: int)
    ensures MulU32U32(0, mult) * p == 0
  {
  }

  lemma MulShrMonotone(a: u64, b: u64, mult: u32, shift: nat)
    requires shift <= 32 && a <= b && Scaled(b, mult, shift) < TWO64
    ensures MulU64U32Shr(a, mult, shift) <= MulU64U32Shr(b, mult, shift)
  {
    ScaledMonotone(a, b, mult, shift);
    MulShrIsScaled(a, mult, shift);
    MulShrIsScaled(b, mult, shift);
    var x, y := Scaled(a, mult, shift), Scaled(b, mult, shift);
    RemainderUnique(x, TWO64, 0, x);
    RemainderUnique(y, TWO64, 0, y);
  }

  // ----- TscToPerfTime -----

  lemma TscSplits(cyc: u64, mult: u32, shift: nat)
    requires shift < 64
    ensures BitAnd(cyc, Pow2(shift) - 1) == cyc % Pow2(shift)
    ensures Scaled(cyc, mult, shift)
            == cyc / Pow2(shift) * mult + cyc % Pow2(shift) * mult / Pow2(shift)
  {
    MaskIsRemainder(cyc, shift);
    DivOfProduct(cyc, Pow2(shift), mult);
  }

  lemma DivOfProduct(x: int, p: int, m: int)
    requires p > 0
    ensures x * m / p == x / p * m + x % p * m / p
  {
    var q, r := x / p, x % p;
    assert x * m == p * (q * m) + r * m by {
      Distribute(q, p, 1, r, m);
      assert q * (p * 1) + r == x;
      assert q * m * 1 == q * m;
    }
    DivOfSum(q * m, p, r * m);
  }

  /** The conversion is exact modulo 2^64 if and only if the product of the remainder does not overflow. */
  lemma TscIsScaledIff(cyc: u64, zero: u64, mult: u32, shift: nat)
    requires shift < 64
    ensures Cong(TscToPerfTime(cyc, zero, mult, shift), zero + Scaled(cyc, mult, shift))
            <==> cyc % Pow2(shift) * mult < TWO64
  {
    TscSplits(cyc, mult, shift);
    var prod := cyc % Pow2(shift) * mult;
    var base := zero + cyc / Pow2(shift) * mult;
    assert prod >= 0;
    LostByOverflow(prod, shift);
    var over := prod / TWO64;
    OverflowSmall(cyc % Pow2(shift), mult, shift);
    var kept := Wrap64(prod) / Pow2(shift);
    var time := TscToPerfTime(cyc, zero, mult, shift);
    CongWrap(base + kept);
    CongSwap(time, base + kept, base + kept + over * Pow2(64 - shift));
    MultipleIsZeroIff(base + kept, over, shift);
    if over == 0 { assert prod < TWO64; } else { assert prod >= TWO64; }
  }

  lemma CongSwap(a: int, b: int, c: int)
    requires Cong(a, b)
    ensures Cong(a, c) <==> Cong(b, c)
  {
    CongIsSameWord(a, b);
    CongIsSameWord(a, c);
    CongIsSameWord(b, c);
  }

  /** Dropping the bits above 2^64 before the shift loses `over * 2^(64 - shift)`. */
  lemma LostByOverflow(prod: nat, shift: nat)
    requires shift < 64
    ensures prod / Pow2(shift) == Wrap64(prod) / Pow2(shift) + prod / TWO64 * Pow2(64 - shift)
  {
    Pow2Add(shift, 64 - shift);
    Pow2Known();
    hide Pow2;
    OverflowUnits(prod, Pow2(shift), Pow2(64 - shift));
  }

  lemma OverflowUnits(prod: nat, p: nat, h: nat)
    requires p > 0 && p * h == TWO64
    ensures prod / p == Wrap64(prod) / p + prod / TWO64 * h
  {
    var over, w := prod / TWO64, Wrap64(prod);
    assert prod == over * TWO64 + w;
    Reorder(over, p, h);
    DivOfSum(over * h, p, w);
  }

  lemma Reorder(over: nat, p: nat, h: nat)
    ensures over * (p * h) == over * h * p
  {
  }

  lemma OverflowSmall(rem: nat, mult: u32, shift: nat)
    requires shift < 64 && rem < Pow2(shift)
    ensures 0 <= rem * mult / TWO64 < Pow2(shift)
  {
    ProductFits(rem, mult, Pow2(shift), TWO32);
    var over := rem * mult / TWO64;
    assert rem * mult == TWO64 * over + rem * mult % TWO64;
    assert TWO64 * over < Pow2(shift) * TWO32;
  }

  /** Adding fewer than 2^shift units of 2^(64 - shift) changes the word unless there are none. */
  lemma MultipleIsZeroIff(b: int, over: nat, shift: nat)
    requires shift < 64 && over < Pow2(shift)
    ensures Cong(b, b + over * Pow2(64 - shift)) <==> over == 0
  {
    var h := Pow2(64 - shift);
    Pow2Add(shift, 64 - shift);
    Pow2Known();
    if over == 0 {
      assert over * h == 0;
      CongRefl(b);
    } else {
      UnitsFit(over, Pow2(shift), h);
      NotCongClose(b, over * h);
    }
  }

  lemma UnitsFit(over: int, p: int, h: int)
    requires 0 < over < p && h > 0
    ensures 0 < over * h < p * h
  {
    MulMonotone(1, over, h);
    MulMonotone(over, p - 1, h);
    assert (p - 1) * h == p * h - h;
  }

  lemma NotCongClose(b: int, d: int)
    requires 0 < d < TWO64
    ensures !Cong(b, b + d)
  {
    forall q
      ensures b != b + d + Turns(q)
    {
    }
  }

  /** With shift at most 32 the product cannot overflow, so the conversion is always exact. */
  lemma TscIsScaled(cyc: u64, zero: u64, mult: u32, shift: nat)
    requires shift <= 32
    ensures cyc % Pow2(shift) * mult < TWO64
    ensures TscToPerfTime(cyc, zero, mult, shift) == Wrap64(zero + Scaled(cyc, mult, shift))
  {
    Pow2Monotone(shift, 32);
    Pow2Known();
    ProductFits(cyc % Pow2(shift), mult, TWO32, TWO32);
    TscIsScaledIff(cyc, zero, mult, shift);
    CongIsSameWord(TscToPerfTime(cyc, zero, mult, shift), zero + Scaled(cyc, mult, shift));
    RemainderUnique(TscToPerfTime(cyc, zero, mult, shift), TWO64, 0, TscToPerfTime(cyc, zero, mult, shift));
  }

  lemma TscMonotone(a: u64, b: u64, zero: u64, mult: u32, shift: nat)
    requires shift <= 32 && a <= b && zero + Scaled(b, mult, shift) < TWO64
    ensures TscToPerfTime(a, zero, mult, shift) <= TscToPerfTime(b, zero, mult, shift)
  {
    ScaledMonotone(a, b, mult, shift);
    TscIsScaled(a, zero, mult, shift);
    TscIsScaled(b, zero, mult, shift);
    var x, y := zero + Scaled(a, mult, shift), zero + Scaled(b, mult, shift);
    RemainderUnique(x, TWO64, 0, x);
    RemainderUnique(y, TWO64, 0, y);
  }

  /** Both conversions agree on every shift they share. */
  lemma ConversionsAgree(a: u64, mult: u32, shift: nat)
    requires shift <= 32
    ensures TscToPerfTime(a, 0, mult, shift) == MulU64U32Shr(a, mult, shift)
  {
    TscIsScaled(a, 0, mult, shift);
    MulShrIsScaled(a, mult, shift);
  }
}
