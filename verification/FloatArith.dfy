/** Binary64 multiplication, division, addition, subtraction and comparison in software.

    For finite operands every operation gives the exact result rounded once; the special values
    are spelled out in the contracts. */
module FloatArith {
  import opened Words
  import opened Ieee754
  import opened FloatBits
  import opened FloatPack

  const SUB: nat := 1074 // the smallest subnormal is 2^-SUB

  // ---- unpacking ----

  datatype Unpacked = Unpacked(sign: nat, exp: int, mant: nat)

  /** Sign, exponent and significand of a finite encoding; a subnormal has no hidden bit. */
  function Unpack(x: u64): (u: Unpacked)
    ensures u.sign == Sign(x)
    ensures Finite(x) ==>
      -1022 <= u.exp <= 1023 && u.mant < 0x20_0000_0000_0000 && Mag(Code(x)) == u.mant * Pow2(u.exp + 1022)
  {
    Fields(x);
    if Exp(x) == 0 then
      Unpacked(Sign(x), -1022, Frac(x))
    else
      UnpackNormal(x);
      Unpacked(Sign(x), Exp(x) - 1023, HiddenBit(Frac(x)))
  }

  /** `(1 << 52) | frac`. */
  function HiddenBit(frac: nat): nat
    requires frac < 0x10_0000_0000_0000
  {
    Or(0x10_0000_0000_0000, frac)
  }

  lemma UnpackNormal(x: u64)
    requires Exp(x) > 0
    ensures HiddenBit(Frac(x)) == 0x10_0000_0000_0000 + Frac(x)
    ensures Mag(Code(x)) == HiddenBit(Frac(x)) * Pow2(Exp(x) - 1)
    ensures Finite(x) ==> Exp(x) <= 2046
  {
    Fields(x);
    Pow2At52();
    MultipleOr(1, Frac(x), 0x10_0000_0000_0000, 52);
    MagOf(Code(x), Exp(x) - 1, 0x10_0000_0000_0000 + Frac(x));
  }

  /** Shifts a nonzero significand up to its hidden bit. */
  method Normalize(exp: int, mant: nat) returns (e: int, m: nat)
    requires mant < 0x20_0000_0000_0000
    ensures mant == 0 ==> e == exp && m == 0
    ensures mant > 0 ==> 0x10_0000_0000_0000 <= m < 0x20_0000_0000_0000
    ensures mant > 0 ==> 0 <= exp - e <= 52 && m == mant * Pow2(exp - e)
  {
    e, m := exp, mant;
    if mant == 0 { return; }
    while m < 0x10_0000_0000_0000
      invariant 0 <= exp - e <= 52 && 0 < m < 0x20_0000_0000_0000 && m == mant * Pow2(exp - e)
      decreases 0x20_0000_0000_0000 - m
    {
      NormalizeStep(mant, m, exp - e);
      m := m * 2;
      e := e - 1;
    }
  }

  lemma NormalizeStep(mant: nat, m: nat, s: nat)
    requires mant > 0 && m == mant * Pow2(s) && m < 0x10_0000_0000_0000
    ensures s < 52 && 2 * m == mant * Pow2(s + 1)
  {
    Pow2At52();
    MulMonotone(1, mant, Pow2(s));
    if s >= 52 { Pow2Monotone(52, s); assert false; }
    MulAssoc(mant, Pow2(s), 2); MulComm(Pow2(s), 2);
  }

  /** A finite nonzero number as a 53-bit significand times a power of two. */
  method UnpackNonzero(x: u64) returns (e: int, m: nat)
    requires Finite(x) && Code(x) != 0
    ensures Normal(Mag(Code(x)), e, m)
  {
    var u := Unpack(x);
    if u.mant == 0 { ZeroMantissa(x); }
    e, m := Normalize(u.exp, u.mant);
    NormalizedMag(Mag(Code(x)), u.exp, u.mant, e, m);
  }

  /** mag = m * 2^(e + 1022), without negative powers. */
  ghost predicate Normal(mag: nat, e: int, m: nat) {
    && e + SUB >= 0 && e <= 1023
    && 0x10_0000_0000_0000 <= m < 0x20_0000_0000_0000
    && mag * 0x10_0000_0000_0000 == m * Pow2(e + SUB)
  }

  lemma ZeroMantissa(x: u64)
    requires Mag(Code(x)) == 0
    ensures Code(x) == 0
  {
    MagOrderIff(0, Code(x));
  }

  lemma NormalizedMag(mag: nat, exp: int, mant: nat, e: int, m: nat)
    requires -1022 <= exp <= 1023 && 0 <= exp - e <= 52 && mag == mant * Pow2(exp + 1022)
    requires m == mant * Pow2(exp - e) && 0x10_0000_0000_0000 <= m < 0x20_0000_0000_0000
    ensures Normal(mag, e, m)
  {
    Pow2At52();
    Pow2Add(exp + 1022, 52);
    Pow2Add(exp - e, e + SUB);
    MulAssoc(mant, Pow2(exp + 1022), 0x10_0000_0000_0000);
    MulAssoc(mant, Pow2(exp - e), Pow2(e + SUB));
  }

  // ---- multiplication ----

  /** 128-bit accumulation; the carry out of the low word is seen as a wrap-around. */
  method U128Add(hi: u64, lo: u64, ahi: u64, alo: u64) returns (hi': u64, lo': u64)
    requires hi + ahi + 1 < 0x1_0000_0000_0000_0000
    ensures hi' * 0x1_0000_0000_0000_0000 + lo'
         == hi * 0x1_0000_0000_0000_0000 + lo + (ahi * 0x1_0000_0000_0000_0000 + alo)
  {
    lo' := (lo + alo) % 0x1_0000_0000_0000_0000;
    hi' := hi + ahi;
    if lo' < lo { hi' := hi' + 1; }
  }

  /** Shift-and-add product of two significands. */
  method Product(am: nat, bm: nat) returns (hi: u64, lo: u64)
    requires am < 0x20_0000_0000_0000 && bm < 0x20_0000_0000_0000
    ensures hi * 0x1_0000_0000_0000_0000 + lo == am * bm
  {
    hi, lo := 0, 0;
    var i := 0;
    assert bm % 1 == 0;
    while i < 53
      invariant 0 <= i <= 53
      invariant hi * 0x1_0000_0000_0000_0000 + lo == am * (bm % Pow2(i))
    {
      AccumulateBit(am, bm, i, hi, lo);
      if Shr(bm, i) % 2 != 0 {
        var alo: u64, ahi: u64 := am, 0;
        if i != 0 {
          ShiftAcross(am, i);
          alo, ahi := Shl64(am, i), Shr(am, 64 - i);
        }
        hi, lo := U128Add(hi, lo, ahi, alo);
      }
      i := i + 1;
    }
    BelowAll(bm);
  }

  lemma BelowAll(bm: nat)
    requires bm < 0x20_0000_0000_0000
    ensures bm % Pow2(53) == bm
  {
    Pow2At52();
    assert Pow2(53) == 2 * Pow2(52);
  }

  /** One more bit of the multiplier, and why the accumulator has room for it. */
  lemma AccumulateBit(am: nat, bm: nat, i: nat, hi: nat, lo: u64)
    requires am < 0x20_0000_0000_0000 && i < 53
    requires hi * 0x1_0000_0000_0000_0000 + lo == am * (bm % Pow2(i))
    ensures am * (bm % Pow2(i + 1)) == am * (bm % Pow2(i)) + (if Shr(bm, i) % 2 != 0 then am * Pow2(i) else 0)
    ensures hi < 0x8000_0000_0000_0000
  {
    var p := Pow2(i);
    DivDiv(bm, p, 2);
    MulComm(p, 2);
    var bit := Shr(bm, i) % 2;
    MulDistrib(p * bit, bm % p, am);
    AccumulatorSmall(am, bm % p, i, hi, lo);
  }

  lemma AccumulatorSmall(am: nat, low: nat, i: nat, hi: nat, lo: u64)
    requires am < 0x20_0000_0000_0000 && i < 53 && low < Pow2(i)
    requires hi * 0x1_0000_0000_0000_0000 + lo == am * low
    ensures hi < 0x8000_0000_0000_0000
  {
    Pow2At52();
    Pow2Monotone(i, 52);
    MulBound(am, low, 0x20_0000_0000_0000, 0x10_0000_0000_0000);
  }

  lemma ShiftAcross(am: nat, i: nat)
    requires am < 0x20_0000_0000_0000 && 0 < i < 53
    ensures Shr(am, 64 - i) * 0x1_0000_0000_0000_0000 + Shl64(am, i) == am * Pow2(i)
  {
    var p, m := Pow2(i), Pow2(64 - i);
    Pow2At64();
    Pow2Add(64 - i, i);
    Shl64KeepsLow(am, i);
    DivModSplit(am, m);
    MulDistrib(Shr(am, 64 - i) * m, am % m, p);
    MulAssoc(Shr(am, 64 - i), m, p);
  }

  /** The guard bits kept of a 106-bit product. */
  lemma MulFaithful(p: nat, e0: int, k: nat, sh: nat)
    requires e0 + k >= 0 && 49 <= sh <= 50
    requires p >= if sh == 49 then 0x100_0000_0000_0000_0000_0000_0000 else 0x200_0000_0000_0000_0000_0000_0000
    ensures Faithful(Jam(p, sh), Times(p, Pow2(e0 + k)), Unit(0x2_0000_0000_0000, k, e0 + (sh - 49)))
  {
    var w := Pow2(e0 + k);
    Pow2At49();
    ExactIsSameSide(p, Times(p, w), w, 2);
    JamKeepsSide(p, Times(p, w), w, 2, sh);
    Pow2Add(e0 + k, sh);
    Pow2Add(49, e0 + (sh - 49) + k);
    JamLarge(p, sh);
  }

  lemma Pow2At49() ensures Pow2(49) == 0x2_0000_0000_0000 && Pow2(50) == 0x4_0000_0000_0000 {
    Pow2At16(); Pow2Add(16, 16); Pow2Add(32, 16);
    assert Pow2(49) == 2 * Pow2(48) && Pow2(50) == 2 * Pow2(49);
  }

  lemma JamLarge(p: nat, sh: nat)
    requires 49 <= sh <= 50
    requires p >= if sh == 49 then 0x100_0000_0000_0000_0000_0000_0000 else 0x200_0000_0000_0000_0000_0000_0000
    ensures Jam(p, sh) >= 0x80_0000_0000_0000
  {
    Pow2At49();
    assert Shr(p, sh) == if sh == 49 then p / 0x2_0000_0000_0000 else p / 0x4_0000_0000_0000;
  }

  /** The product the guard bits stand for is the product of the operands. */
  lemma MulRatio(ma: nat, ae: int, am: nat, mb: nat, be: int, bm: nat)
    requires Normal(ma, ae, am) && Normal(mb, be, bm)
    ensures Times(Times(am, bm), Pow2(ae + be + 2 * SUB)) * Pow2(SUB)
         == Times(ma, mb) * Times(0x2_0000_0000_0000, Pow2(2 * SUB - 1019))
  {
    Pow2Add(ae + SUB, be + SUB);
    SwapInner(am, Pow2(ae + SUB), bm, Pow2(be + SUB));
    var h := 0x10_0000_0000_0000;
    SwapInner(ma, h, mb, h);
    assert am * bm * Pow2(ae + be + 2 * SUB) == ma * mb * (h * h);
    ScaleOut(h);
    MulAssoc(ma * mb, h * h, Pow2(SUB));
  }

  lemma ScaleOut(h: nat)
    requires h == 0x10_0000_0000_0000
    ensures h * h * Pow2(SUB) == 0x2_0000_0000_0000 * Pow2(2 * SUB - 1019)
  {
    Pow2At52(); Pow2At49();
    Pow2Add(52, 52);
    Pow2Add(104, SUB);
    Pow2Add(49, 2 * SUB - 1019);
  }

  /** Truncates the product with a sticky bit and packs it. */
  method MulPack(sign: nat, ae: int, am: nat, be: int, bm: nat) returns (r: u64)
    requires sign <= 1 && ae + SUB >= 0 && be + SUB >= 0
    requires 0x10_0000_0000_0000 <= am < 0x20_0000_0000_0000
    requires 0x10_0000_0000_0000 <= bm < 0x20_0000_0000_0000
    ensures Sign(r) == sign
    ensures Rounds(Code(r), Times(Times(am, bm), Pow2(ae + be + 2 * SUB)),
                   Times(0x2_0000_0000_0000, Pow2(2 * SUB - 1019)))
  {
    var hi, lo := Product(am, bm);
    ghost var p, k := Times(am, bm), 2 * SUB;
    ProductSize(am, bm, hi, lo);
    var exp := ae + be;
    if hi / 0x200_0000_0000 % 2 != 0 {
      MulFaithful(p, exp, k, 50);
      r := Pack(sign, exp + 1, ShiftRightJam128(hi, lo, 50), Times(p, Pow2(exp + k)), 0x2_0000_0000_0000, k);
    } else {
      MulFaithful(p, exp, k, 49);
      r := Pack(sign, exp, ShiftRightJam128(hi, lo, 49), Times(p, Pow2(exp + k)), 0x2_0000_0000_0000, k);
    }
  }

  method MulNonzero(sign: nat, a: u64, b: u64) returns (r: u64)
    requires sign <= 1 && Finite(a) && Finite(b) && Code(a) != 0 && Code(b) != 0
    ensures Sign(r) == sign && Rounds(Code(r), Times(Mag(Code(a)), Mag(Code(b))), Pow2(SUB))
  {
    var ae, am := UnpackNonzero(a);
    var be, bm := UnpackNonzero(b);
    r := MulPack(sign, ae, am, be, bm);
    MulRatio(Mag(Code(a)), ae, am, Mag(Code(b)), be, bm);
    RoundsSameRatio(Code(r), Times(Times(am, bm), Pow2(ae + be + 2 * SUB)),
                    Times(0x2_0000_0000_0000, Pow2(2 * SUB - 1019)),
                    Times(Mag(Code(a)), Mag(Code(b))), Pow2(SUB));
  }

  /** The leading bit of a product of two 53-bit significands is bit 104 or bit 105. */
  lemma ProductSize(am: nat, bm: nat, hi: nat, lo: u64)
    requires 0x10_0000_0000_0000 <= am < 0x20_0000_0000_0000
    requires 0x10_0000_0000_0000 <= bm < 0x20_0000_0000_0000
    requires hi * 0x1_0000_0000_0000_0000 + lo == am * bm
    ensures hi < Pow2(49) && hi < Pow2(50)
    ensures am * bm >= 0x100_0000_0000_0000_0000_0000_0000
    ensures hi / 0x200_0000_0000 % 2 != 0 ==> am * bm >= 0x200_0000_0000_0000_0000_0000_0000
  {
    Pow2At49();
    MulBound(am, bm, 0x1f_ffff_ffff_ffff, 0x1f_ffff_ffff_ffff);
    MulMonotone(0x10_0000_0000_0000, am, bm);
  }

  /** What the special-value tests of the runtime decide. */
  method TestNan(x: u64) returns (b: bool)
    ensures b <==> Code(x) > INF
  {
    Classes(x);
    b := IsNan(x);
  }

  method TestInf(x: u64) returns (b: bool)
    ensures b <==> Code(x) == INF
  {
    Classes(x);
    b := IsInf(x);
  }

  method TestZero(x: u64) returns (b: bool)
    ensures b <==> Code(x) == 0
  {
    Classes(x);
    b := IsZero(x);
  }

  ghost function SignXor(a: u64, b: u64): nat { if Sign(a) == Sign(b) then 0 else 1 }

  /** `sign(a) ^ sign(b)`. */
  method XorSigns(a: u64, b: u64) returns (s: nat)
    ensures s == SignXor(a, b) <= 1
  {
    Fields(a); Fields(b);
    s := Xor(Sign(a), Sign(b));
    assert Xor(0, 0) == 0;
  }

  /** The exact product rounded once; infinity times zero and NaN operands give NaN. */
  method Mul(a: u64, b: u64) returns (r: u64)
    ensures Code(a) > INF || Code(b) > INF ==> r == QNAN
    ensures (Code(a) == INF && Code(b) == 0) || (Code(b) == INF && Code(a) == 0) ==> r == QNAN
    ensures (Code(a) == INF && 0 < Code(b) <= INF) || (Code(b) == INF && 0 < Code(a) <= INF) ==>
      Code(r) == INF && Sign(r) == SignXor(a, b)
    ensures Finite(a) && Finite(b) ==>
      Sign(r) == SignXor(a, b) && Rounds(Code(r), Times(Mag(Code(a)), Mag(Code(b))), Pow2(SUB))
  {
    var sign := XorSigns(a, b);
    var nanA := TestNan(a);
    var nanB := TestNan(b);
    if nanA || nanB { return QNAN; }
    var infA := TestInf(a);
    var infB := TestInf(b);
    var zeroA := TestZero(a);
    var zeroB := TestZero(b);
    if (infA && zeroB) || (infB && zeroA) { return QNAN; }
    if infA || infB { return Assemble(sign, 2047, 0); }
    if zeroA || zeroB {
      r := sign * 0x8000_0000_0000_0000;
      ExactRounds(0, 0, Pow2(SUB));
      return;
    }
    r := MulNonzero(sign, a, b);
  }

  // ---- division ----

  /** Restoring division of n by d with 55 fraction bits below the integer bit. */
  method Quotient(n: nat, d: nat) returns (q: u64, rem: nat)
    requires 0 < d <= n < 2 * d && d < 0x20_0000_0000_0000
    ensures n * 0x80_0000_0000_0000 == q * d + rem && rem < d
    ensures 0x80_0000_0000_0000 <= q < 0x100_0000_0000_0000
  {
    q, rem := 1, n - d;
    var i := 0;
    Pow2At55();
    while i < 55
      invariant 0 <= i <= 55 && rem < d
      invariant n * Pow2(i) == q * d + rem
      invariant Pow2(i) <= q < 2 * Pow2(i) && q < 0x100_0000_0000_0000
    {
      QuotientStep(n, d, q, rem, i);
      rem := rem * 2;
      q := q * 2;
      if rem >= d {
        rem := rem - d;
        OrOne(q);
        q := Or(q, 1);
      }
      i := i + 1;
    }
  }

  lemma Pow2At55() ensures Pow2(55) == 0x80_0000_0000_0000 {
    Pow2At52();
    Pow2Add(52, 3);
  }

  lemma QuotientStep(n: nat, d: nat, q: nat, rem: nat, i: nat)
    requires i < 55 && n * Pow2(i) == q * d + rem && q < 2 * Pow2(i)
    ensures n * Pow2(i + 1) == 2 * q * d + 2 * rem && (2 * q + 1) * d == 2 * q * d + d
    ensures 2 * q + 1 < 0x100_0000_0000_0000
  {
    MulAssoc(n, Pow2(i), 2); MulComm(Pow2(i), 2);
    MulAssoc(2, q, d);
    MulDistrib(2 * q, 1, d);
    Pow2Monotone(i + 1, 55);
    Pow2At55();
  }

  /** The quotient with its remainder jammed in agrees with the exact quotient. */
  lemma StickyQuotient(n: nat, d: nat, q: nat, rem: nat)
    requires n == q * d + rem && rem < d
    ensures SameSide(if rem != 0 then Or(q, 1) else q, n, d, 2)
  {
    OrOne(q);
    LastBitOfTwo(q);
    DivModSplit(q, 2);
    var h, t := q / 2, q % 2;
    MulDistrib(h * 2, t, d);
    MulAssoc(h, 2, d);
    assert t == 0 ==> t * d == 0;
    assert t == 1 ==> t * d == d;
  }

  lemma SideScale(m: nat, v: nat, w: nat, g: nat, s: nat)
    requires g > 0 && s > 0 && SameSide(m, v, w, g)
    ensures SameSide(m, Times(v, s), Times(w, s), g)
  {
    var q, u := m / g, g * w;
    MulAssoc(g, w, s);
    MulAssoc(q, u, s);
    MulMonotone(q * u, v, s);
    MulDistrib(q * u, u, s);
    MulMonotone(v, q * u + u, s);
    if v != q * u { MulMonotone(q * u + 1, v, s); MulDistrib(q * u, 1, s); }
  }

  method DivPack(sign: nat, ae: int, am: nat, be: int, bm: nat) returns (r: u64)
    requires sign <= 1 && ae + SUB >= 0 && be <= 1023
    requires 0x10_0000_0000_0000 <= am < 0x20_0000_0000_0000
    requires 0x10_0000_0000_0000 <= bm < 0x20_0000_0000_0000
    ensures Sign(r) == sign
    ensures Rounds(Code(r), Times(am * 0x80_0000_0000_0000, Pow2(ae - be + 2 * SUB)), Times(bm, Pow2(2 * SUB - 1019)))
  {
    var exp, n := ae - be, am;
    if am < bm {
      n := am * 2;
      exp := exp - 1;
    }
    var q, rem := Quotient(n, bm);
    ghost var v, k := Times(am * 0x80_0000_0000_0000, Pow2(ae - be + 2 * SUB)), 2 * SUB;
    DivFaithful(n, bm, q, rem, exp + k);
    DivValue(am, n, ae - be, exp, k);
    if rem != 0 { q := Or(q, 1); }
    r := Pack(sign, exp, q, v, bm, k);
  }

  lemma DivFaithful(n: nat, d: nat, q: nat, rem: nat, s: nat)
    requires n * 0x80_0000_0000_0000 == q * d + rem && rem < d
    requires 0x80_0000_0000_0000 <= q < 0x100_0000_0000_0000
    ensures var m := if rem != 0 then Or(q, 1) else q;
      m < 0x100_0000_0000_0000 && Faithful(m, Times(n * 0x80_0000_0000_0000, Pow2(s)), Times(d, Pow2(s)))
  {
    StickyQuotient(n * 0x80_0000_0000_0000, d, q, rem);
    OrOne(q);
    SideScale(if rem != 0 then Or(q, 1) else q, n * 0x80_0000_0000_0000, d, 2, Pow2(s));
  }

  lemma DivValue(am: nat, n: nat, e0: int, e: int, k: nat)
    requires e + k >= 0 && ((n == am && e == e0) || (n == 2 * am && e == e0 - 1))
    ensures Times(n * 0x80_0000_0000_0000, Pow2(e + k)) == Times(am * 0x80_0000_0000_0000, Pow2(e0 + k))
  {
    if e != e0 {
      MulAssoc(am * 0x80_0000_0000_0000, 2, Pow2(e + k));
    }
  }

  /** The quotient the mantissa stands for is the quotient of the operands. */
  lemma DivRatio(ma: nat, ae: int, am: nat, mb: nat, be: int, bm: nat)
    requires Normal(ma, ae, am) && Normal(mb, be, bm)
    ensures Times(am * 0x80_0000_0000_0000, Pow2(ae - be + 2 * SUB)) * mb
         == Times(ma, Pow2(SUB)) * Times(bm, Pow2(2 * SUB - 1019))
  {
    var h, c := 0x10_0000_0000_0000, 0x80_0000_0000_0000;
    var x, y := am * c * Pow2(ae - be + 2 * SUB), Pow2(2 * SUB - 1019);
    // both sides times h
    MulAssoc(x, mb, h);
    SwapInner(am * c, Pow2(ae - be + 2 * SUB), bm, Pow2(be + SUB));
    Pow2Add(ae - be + 2 * SUB, be + SUB);
    SwapInner(ma * Pow2(SUB), bm, h, y);
    DivScale(ma, ae, am, bm, h, c);
    Cancel(x * mb, ma * Pow2(SUB) * (bm * y), h);
  }

  lemma DivScale(ma: nat, ae: int, am: nat, bm: nat, h: nat, c: nat)
    requires h == 0x10_0000_0000_0000 && c == 0x80_0000_0000_0000 && ae + SUB >= 0
    requires ma * h == am * Pow2(ae + SUB)
    ensures ma * Pow2(SUB) * (bm * Pow2(2 * SUB - 1019)) * h == am * c * bm * Pow2(ae + 3 * SUB)
  {
    var y := Pow2(2 * SUB - 1019);
    Pow2At55();
    Pow2Add(SUB, 2 * SUB - 1019);
    Pow2Add(55, 2 * SUB);
    Pow2Add(ae + SUB, 2 * SUB);
    SwapInner(ma, Pow2(SUB), bm, y);
    assert Pow2(SUB) * y == c * Pow2(2 * SUB);
    MulAssoc(ma * bm, c * Pow2(2 * SUB), h);
    Rearrange(ma, bm, c, Pow2(2 * SUB), h, am, Pow2(ae + SUB));
  }

  lemma Rearrange(ma: int, bm: int, c: int, p: int, h: int, am: int, q: int)
    requires ma * h == am * q
    ensures ma * bm * (c * p) * h == am * c * bm * (q * p)
  {
    assert ma * bm * (c * p) * h == ma * h * (bm * c * p);
    assert am * c * bm * (q * p) == am * q * (bm * c * p);
  }

  lemma Cancel(x: int, y: int, h: int)
    requires h > 0 && x * h == y * h
    ensures x == y
  {}

  method DivNonzero(sign: nat, a: u64, b: u64) returns (r: u64)
    requires sign <= 1 && Finite(a) && Finite(b) && Code(a) != 0 && Code(b) != 0
    ensures Sign(r) == sign && Rounds(Code(r), Times(Mag(Code(a)), Pow2(SUB)), Mag(Code(b)))
  {
    var ae, am := UnpackNonzero(a);
    var be, bm := UnpackNonzero(b);
    r := DivPack(sign, ae, am, be, bm);
    DivRatio(Mag(Code(a)), ae, am, Mag(Code(b)), be, bm);
    MulMonotone(1, bm, Pow2(2 * SUB - 1019));
    MagOrderIff(0, Code(b));
    RoundsSameRatio(Code(r), Times(am * 0x80_0000_0000_0000, Pow2(ae - be + 2 * SUB)),
                    Times(bm, Pow2(2 * SUB - 1019)), Times(Mag(Code(a)), Pow2(SUB)), Mag(Code(b)));
  }

  /** The exact quotient rounded once; a finite number over zero gives infinity. */
  method Div(a: u64, b: u64) returns (r: u64)
    ensures Code(a) > INF || Code(b) > INF ==> r == QNAN
    ensures (Code(a) == INF && Code(b) == INF) || (Code(a) == 0 && Code(b) == 0) ==> r == QNAN
    ensures (0 < Code(a) <= INF && Code(b) == 0) || (Code(a) == INF && Code(b) < INF) ==>
      Code(r) == INF && Sign(r) == SignXor(a, b)
    ensures Code(a) < INF && Code(b) == INF ==> Code(r) == 0 && Sign(r) == SignXor(a, b)
    ensures Finite(a) && 0 < Code(b) < INF ==>
      Sign(r) == SignXor(a, b) && Rounds(Code(r), Times(Mag(Code(a)), Pow2(SUB)), Mag(Code(b)))
  {
    var sign := XorSigns(a, b);
    var nanA := TestNan(a);
    var nanB := TestNan(b);
    if nanA || nanB { return QNAN; }
    var infA := TestInf(a);
    var infB := TestInf(b);
    if infA && infB { return QNAN; }
    var zeroA := TestZero(a);
    var zeroB := TestZero(b);
    if zeroA && zeroB { return QNAN; }
    if zeroB { return Assemble(sign, 2047, 0); }
    if zeroA {
      r := sign * 0x8000_0000_0000_0000;
      if !infB { ZeroQuotient(Code(b)); }
      return;
    }
    if infA { return Assemble(sign, 2047, 0); }
    if infB { return sign * 0x8000_0000_0000_0000; }
    r := DivNonzero(sign, a, b);
  }

  lemma ZeroQuotient(c: nat)
    requires c != 0
    ensures Rounds(0, Times(Mag(0), Pow2(SUB)), Mag(c))
  {
    MagOrderIff(0, c);
    ExactRounds(0, 0, Mag(c));
  }

  // ---- addition ----

  /** The number a finite encoding stands for, in units of 2^-1074. */
  ghost function Value(x: u64): int {
    if Sign(x) == 0 then Mag(Code(x)) else -(Mag(Code(x)) as int)
  }

  ghost function Abs(x: int): nat { if x >= 0 then x else -x }

  /** r is a number rounded once to binary64; the sign of an exact zero is left open. */
  ghost predicate RoundsValue(r: u64, exact: int) {
    && Rounds(Code(r), Abs(exact), 1)
    && (exact > 0 ==> Sign(r) == 0)
    && (exact < 0 ==> Sign(r) == 1)
  }

  lemma SumSide(x: nat, m: nat, v: nat, w: nat)
    requires x % 2 == 0 && SameSide(m, v, w, 2)
    ensures SameSide(x + m, x * w + v, w, 2)
  {
    var h, q, u := x / 2, m / 2, 2 * w;
    assert (x + m) / 2 == h + q && (x + m) % 2 == m % 2;
    MulAssoc(h, 2, w);
    MulDistrib(h, q, u);
  }

  lemma DiffSide(x: nat, m: nat, v: nat, w: nat)
    requires x % 2 == 0 && m <= x && SameSide(m, v, w, 2)
    ensures v <= x * w && SameSide(x - m, x * w - v, w, 2)
  {
    var h, q, u := x / 2, m / 2, 2 * w;
    MulAssoc(h, 2, w);
    MulDistrib(h, q, u);
    if m % 2 == 0 {
      assert (x - m) / 2 == h - q;
      MulMonotone(q, h, u);
    } else {
      assert (x - m) / 2 == h - q - 1;
      MulDistrib(h - q, 1, u);
      MulMonotone(q + 1, h, u);
      MulDistrib(q, 1, u);
    }
  }

  /** The smaller operand brought to the exponent of the larger one. */
  lemma AlignSide(bm: nat, be: int, d: nat)
    requires be + SUB >= 0 && 0x10_0000_0000_0000 <= bm < 0x20_0000_0000_0000
    ensures SameSide(Jam(8 * bm, d), Times(8 * bm, Pow2(be + SUB)), Pow2(be + d + SUB), 2)
    ensures d == 0 ==> Jam(8 * bm, d) == 8 * bm
    ensures d >= 1 ==> Jam(8 * bm, d) < 0x80_0000_0000_0000
    ensures d >= 2 ==> Jam(8 * bm, d) < 0x40_0000_0000_0000
    ensures d <= 1 ==> Jam(8 * bm, d) * Pow2(be + d + SUB) == Times(8 * bm, Pow2(be + SUB))
  {
    Pow2Add(be + SUB, d);
    AlignJam(8 * bm, Pow2(be + SUB), Pow2(be + d + SUB), d);
    AlignSize(8 * bm, d);
    AlignExact(8 * bm, Pow2(be + SUB), Pow2(be + d + SUB), d);
  }

  lemma AlignJam(x: nat, wb: nat, w: nat, d: nat)
    requires wb > 0 && w == wb * Pow2(d)
    ensures SameSide(Jam(x, d), Times(x, wb), w, 2)
  {
    ExactIsSameSide(x, Times(x, wb), wb, 2);
    JamKeepsSide(x, Times(x, wb), wb, 2, d);
  }

  lemma AlignExact(x: nat, wb: nat, w: nat, d: nat)
    requires x < 0x100_0000_0000_0000 && x % 8 == 0 && w == wb * Pow2(d)
    ensures d <= 1 ==> Jam(x, d) * w == Times(x, wb)
  {
    AlignSize(x, d);
    Pow2At8();
    if d == 1 { MulComm(wb, 2); MulAssoc(x / 2, 2, wb); }
  }

  lemma AlignSize(x: nat, d: nat)
    requires x < 0x100_0000_0000_0000 && x % 8 == 0
    ensures d == 0 ==> Jam(x, d) == x
    ensures d == 1 ==> Jam(x, d) == x / 2
    ensures d >= 1 ==> Jam(x, d) < 0x80_0000_0000_0000
    ensures d >= 2 ==> Jam(x, d) < 0x40_0000_0000_0000
  {
    Pow2At8();
    assert Pow2(2) == 4;
    if d == 0 {
      assert x % 1 == 0 && x / 1 == x;
    } else if d >= 2 {
      Pow2Monotone(2, d);
      QuotientShrinks(x, 4, Pow2(d));
    }
  }

  lemma QuotientShrinks(x: nat, p: nat, q: nat)
    requires 0 < p <= q
    ensures x / q <= x / p
  {
    if x / q > x / p {
      DivModSplit(x, p); DivModSplit(x, q);
      MulMonotone(x / p + 1, x / q, q);
      MulMonotone(p, q, x / p + 1); MulComm(p, x / p + 1); MulComm(q, x / p + 1);
      MulDistrib(x / p, 1, p);
      assert false;
    }
  }

  lemma AlignedSum(x: nat, y: nat, vb: nat, w: nat)
    requires x % 8 == 0 && x >= 0x80_0000_0000_0000 && SameSide(y, vb, w, 2)
    ensures Faithful(x + y, Times(x, w) + vb, w)
  {
    SumSide(x, y, vb, w);
  }

  lemma AlignedDiff(x: nat, y: nat, vb: nat, w: nat, near: bool)
    requires x % 8 == 0 && x >= 0x80_0000_0000_0000 && SameSide(y, vb, w, 2) && y <= x
    requires if near then y * w == vb else y < 0x40_0000_0000_0000
    ensures vb <= Times(x, w) && Faithful(x - y, Times(x, w) - vb, w)
  {
    DiffSide(x, y, vb, w);
    MulDistrib(x, y, w);
  }

  method ShiftAlign(m: u64, d: nat) returns (y: u64)
    requires m < 0x100_0000_0000_0000 && m % 8 == 0
    ensures y == Jam(m, d)
  {
    AlignSize(m, d);
    y := ShiftRightJam(m, d);
  }

  /** Adds or subtracts aligned significands; the first operand is the larger one. */
  method AddPack(aneg: nat, ae: int, am: nat, bneg: nat, be: int, bm: nat) returns (r: u64)
    requires aneg <= 1 && bneg <= 1 && be + SUB >= 0 && (ae > be || (ae == be && am >= bm))
    requires 0x10_0000_0000_0000 <= am < 0x20_0000_0000_0000
    requires 0x10_0000_0000_0000 <= bm < 0x20_0000_0000_0000
    ensures var va, vb := Times(8 * am, Pow2(ae + SUB)), Times(8 * bm, Pow2(be + SUB));
      && Sign(r) == aneg && (aneg != bneg ==> va >= vb)
      && Rounds(Code(r), if aneg == bneg then va + vb else va - vb, Pow2(SUB - 1019))
  {
    ghost var w, vb := Unit(1, SUB, ae), Times(8 * bm, Pow2(be + SUB));
    var x := am * 8;
    var y := ShiftAlign(bm * 8, ae - be);
    AlignSide(bm, be, ae - be);
    var mant: int;
    ghost var v: nat;
    if aneg == bneg {
      AlignedSum(x, y, vb, w);
      mant := x + y;
      v := Times(x, w) + vb;
    } else {
      AlignedDiff(x, y, vb, w, ae - be <= 1);
      if x >= y { mant := x - y; } else { mant := y - x; }
      v := Times(x, w) - vb;
    }
    r := Pack(aneg, ae, mant, v, 1, SUB);
  }

  lemma AddRatio(ma: nat, ae: int, am: nat)
    requires Normal(ma, ae, am)
    ensures Times(8 * am, Pow2(ae + SUB)) == ma * Pow2(SUB - 1019)
  {
    Pow2At55();
    assert SUB - 1019 == 55;
    MulAssoc(8, am, Pow2(ae + SUB));
  }

  lemma Descale(c: nat, m: nat, p: nat)
    requires p > 0 && Rounds(c, Times(m, p), p)
    ensures Rounds(c, m, 1)
  {
    RoundsSameRatio(c, Times(m, p), p, m, 1);
  }

  /** Adds two numbers, the larger magnitude first, given as signs and normal significands. */
  method AddOrdered(sa: nat, ae: int, am: nat, sb: nat, be: int, bm: nat, ghost ma: nat, ghost mb: nat)
    returns (r: u64)
    requires sa <= 1 && sb <= 1 && Normal(ma, ae, am) && Normal(mb, be, bm)
    requires ae > be || (ae == be && am >= bm)
    ensures Sign(r) == sa && (sa != sb ==> ma >= mb) && Rounds(Code(r), if sa == sb then ma + mb else ma - mb, 1)
  {
    AddRatio(ma, ae, am);
    AddRatio(mb, be, bm);
    r := AddPack(sa, ae, am, sb, be, bm);
    AddScaled(Code(r), ma, mb, Pow2(SUB - 1019), sa == sb);
  }

  method AddNonzero(a: u64, b: u64) returns (r: u64)
    requires Finite(a) && Finite(b) && Code(a) != 0 && Code(b) != 0
    ensures RoundsValue(r, Value(a) + Value(b))
    ensures Value(a) + Value(b) == 0 ==> Sign(r) == Sign(a)
  {
    var sa, sb := Sign(a), Sign(b);
    Fields(a); Fields(b);
    var ae, am := UnpackNonzero(a);
    var be, bm := UnpackNonzero(b);
    ghost var ma, mb := Mag(Code(a)), Mag(Code(b));
    if ae < be || (ae == be && am < bm) {
      SmallerFirst(ma, ae, am, mb, be, bm);
      r := AddOrdered(sb, be, bm, sa, ae, am, mb, ma);
    } else {
      r := AddOrdered(sa, ae, am, sb, be, bm, ma, mb);
    }
  }

  /** The order of exponent and significand is the order of the magnitudes. */
  lemma SmallerFirst(ma: nat, ae: int, am: nat, mb: nat, be: int, bm: nat)
    requires Normal(ma, ae, am) && Normal(mb, be, bm) && (ae < be || (ae == be && am < bm))
    ensures ma < mb
  {
    var p, q := Pow2(ae + SUB), Pow2(be + SUB);
    if ae == be {
      MulMonotone(am, bm, p);
    } else {
      Pow2Monotone(ae + SUB + 1, be + SUB);
      MulMonotone(am, 0x20_0000_0000_0000, p);
      MulMonotone(2 * p, q, 0x10_0000_0000_0000);
      MulMonotone(0x10_0000_0000_0000, bm, q);
    }
  }

  lemma AddScaled(c: nat, ma: nat, mb: nat, p: nat, same: bool)
    requires p > 0 && (!same ==> ma * p >= mb * p)
    requires Rounds(c, if same then ma * p + mb * p else ma * p - mb * p, p)
    ensures !same ==> ma >= mb
    ensures Rounds(c, if same then ma + mb else ma - mb, 1)
  {
    if same {
      MulDistrib(ma, mb, p);
      Descale(c, ma + mb, p);
    } else {
      if ma < mb { MulMonotone(ma, mb, p); assert false; }
      MulDistrib(ma, mb, p);
      Descale(c, ma - mb, p);
    }
  }

  /** The exact sum rounded once; infinities of opposite sign give NaN. An exact zero has the first
      operand's sign, or, of two zeros, is negative when both are. */
  method Add(a: u64, b: u64) returns (r: u64)
    ensures Code(a) > INF || Code(b) > INF ==> r == QNAN
    ensures Code(a) == INF && Code(b) == INF && Sign(a) != Sign(b) ==> r == QNAN
    ensures Code(a) == INF && (Code(b) < INF || (Code(b) == INF && Sign(a) == Sign(b))) ==> r == a
    ensures Code(b) == INF && Code(a) < INF ==> r == b
    ensures Finite(a) && Finite(b) ==> RoundsValue(r, Value(a) + Value(b))
    ensures Finite(a) && Finite(b) && Value(a) + Value(b) == 0 ==> Sign(r) == ZeroSign(a, Sign(b))
  {
    var nanA := TestNan(a);
    var nanB := TestNan(b);
    if nanA || nanB { return QNAN; }
    var infA := TestInf(a);
    var infB := TestInf(b);
    if infA && infB && Sign(a) != Sign(b) { return QNAN; }
    if infA { return a; }
    if infB { return b; }
    var zeroA := TestZero(a);
    var zeroB := TestZero(b);
    if zeroA && zeroB {
      ExactRounds(0, 0, 1);
      if Sign(a) != 0 && Sign(b) != 0 { return 0x8000_0000_0000_0000; }
      return 0;
    }
    if zeroA { ItsOwnRounding(b); return b; }
    if zeroB { ItsOwnRounding(a); return a; }
    r := AddNonzero(a, b);
  }

  /** The sign of an exact zero sum of a and a number of sign sb. */
  function ZeroSign(a: u64, sb: nat): nat { if Code(a) == 0 && sb == 0 then 0 else Sign(a) }

  /** The sign section 6.3 of IEEE 754-2019 gives it when rounding to nearest. */
  function IeeeZeroSign(a: u64, sb: nat): nat { if Sign(a) == sb then sb else 0 }

  /** The sign of a zero sum is the one the standard gives exactly when the first operand is zero or positive. */
  lemma ZeroSignIff(a: u64, b: u64)
    requires Finite(a) && Finite(b) && Value(a) + Value(b) == 0
    ensures ZeroSign(a, Sign(b)) == IeeeZeroSign(a, Sign(b)) <==> Code(a) == 0 || Sign(a) == 0
  {
    Fields(a);
    Fields(b);
    if Code(a) != 0 { MagPositive(Code(a)); }
  }

  lemma MagPositive(c: nat)
    requires c > 0
    ensures Mag(c) > 0
  {
    var e, f := c / 0x10_0000_0000_0000, c % 0x10_0000_0000_0000;
    if e > 0 { assert (0x10_0000_0000_0000 + f) * Pow2(e - 1) > 0; }
  }

  /** -1.0 + 1.0 is -0.0, where the standard has +0.0. */
  method OppositeOnes() returns (r: u64)
    ensures r == 0x8000_0000_0000_0000 && IeeeZeroSign(0xbff0_0000_0000_0000, Sign(0x3ff0_0000_0000_0000)) == 0
  {
    var a: u64, b: u64 := 0xbff0_0000_0000_0000, 0x3ff0_0000_0000_0000;
    assert Code(a) == Code(b) == 0x3ff0_0000_0000_0000 && Sign(a) == 1 && Sign(b) == 0;
    assert Value(a) + Value(b) == 0;
    r := Add(a, b);
    ExactRounds(0, 0, 1);
    RoundsUnique(Code(r), 0, 0, 1);
    Fields(r);
  }

  lemma ItsOwnRounding(x: u64)
    requires Finite(x)
    ensures RoundsValue(x, Value(x))
  {
    Fields(x);
    ExactRounds(Code(x), Mag(Code(x)), 1);
  }

  /** Subtraction is addition of the operand with its sign bit flipped. */
  method Sub(a: u64, b: u64) returns (r: u64)
    ensures Code(a) > INF || Code(b) > INF ==> r == QNAN
    ensures Code(a) == INF && Code(b) == INF && Sign(a) == Sign(b) ==> r == QNAN
    ensures Code(a) == INF && (Code(b) < INF || (Code(b) == INF && Sign(a) != Sign(b))) ==> r == a
    ensures Code(b) == INF && Code(a) < INF ==> Code(r) == INF && Sign(r) == 1 - Sign(b)
    ensures Finite(a) && Finite(b) ==> RoundsValue(r, Value(a) - Value(b))
    ensures Finite(a) && Finite(b) && Value(a) == Value(b) ==> Sign(r) == ZeroSign(a, 1 - Sign(b))
  {
    FlipSign(b);
    r := Add(a, Xor(b, 0x8000_0000_0000_0000));
  }

  lemma FlipSign(b: u64)
    ensures Xor(b, 0x8000_0000_0000_0000) < 0x1_0000_0000_0000_0000
    ensures Code(Xor(b, 0x8000_0000_0000_0000)) == Code(b)
    ensures Sign(Xor(b, 0x8000_0000_0000_0000)) == 1 - Sign(b)
  {
    Pow2At63();
    XorTop(b, 63);
  }

  lemma {:induction false} XorTop(b: nat, k: nat)
    requires b < 2 * Pow2(k)
    ensures Xor(b, Pow2(k)) == if b < Pow2(k) then b + Pow2(k) else b - Pow2(k)
    decreases k
  {
    if k > 0 && b > 0 {
      XorTop(b / 2, k - 1);
      assert Pow2(k) / 2 == Pow2(k - 1) && Pow2(k) % 2 == 0;
    }
  }

  // ---- comparison ----

  /** -1, 0 or 1 as the numbers compare; 1 when either is not a number. */
  method Cmp(a: u64, b: u64) returns (r: int)
    ensures Code(a) > INF || Code(b) > INF ==> r == 1
    ensures Code(a) <= INF && Code(b) <= INF ==>
      && (r == -1 <==> Value(a) < Value(b))
      && (r == 0 <==> Value(a) == Value(b))
      && (r == 1 <==> Value(a) > Value(b))
  {
    var nanA := TestNan(a);
    var nanB := TestNan(b);
    if nanA || nanB { return 1; }
    Fields(a); Fields(b);
    MagOrderIff(Code(a), Code(b));
    MagOrderIff(0, Code(a)); MagOrderIff(0, Code(b));
    var zeroA := TestZero(a);
    var zeroB := TestZero(b);
    if zeroA && zeroB { return 0; }
    if Sign(a) != Sign(b) { return if Sign(a) != 0 then -1 else 1; }
    if a == b { return 0; }
    DoubledCode(a); DoubledCode(b);
    if Sign(a) != 0 { return if Shl64(a, 1) > Shl64(b, 1) then -1 else 1; }
    return if Shl64(a, 1) < Shl64(b, 1) then -1 else 1;
  }

  lemma DoubledCode(x: u64)
    ensures Shl64(x, 1) == 2 * Code(x)
  {
    Pow2At8();
  }
}
