/** The `long long` runtime helpers: 64-bit arithmetic on pairs of 32-bit words.

    Every helper takes the operand words one by one and gives back a (low, high) pair.
    The contracts speak only about the 64-bit numbers the pairs stand for. */
module Int64 {
  import opened Words
  import opened Folding

  datatype Pair = Pair(lo: u32, hi: u32)

  /** The unsigned number a pair of words stands for. */
  function Val(p: Pair): int {
    p.hi * 0x1_0000_0000 + p.lo
  }

  /** The two's complement number a pair of words stands for. */
  function Signed(p: Pair): int {
    if p.hi < 0x8000_0000 then Val(p) else Val(p) - 0x1_0000_0000_0000_0000
  }

  /** C's division: the quotient rounded toward zero. */
  function TruncDiv(a: int, b: int): int
    requires b != 0
  {
    if a >= 0 then (if b > 0 then a / b else -(a / -b))
    else (if b > 0 then -(-a / b) else -a / -b)
  }

  /** C's remainder: it has the sign of the dividend. */
  function TruncMod(a: int, b: int): int
    requires b != 0
  {
    a - TruncDiv(a, b) * b
  }

  // ---- word operations as the C compiler wraps them ----

  function Wrap32(x: int): u32 { x % 0x1_0000_0000 }
  function Wrap64(x: int): u64 { x % 0x1_0000_0000_0000_0000 }
  function Not32(x: u32): u32 { 0xffff_ffff - x }

  /** `x & 65535` and `x >> 16`. */
  function Lo16(x: nat): nat { x % 0x1_0000 }
  function Hi16(x: nat): nat { x / 0x1_0000 }

  lemma WrapNear(x: int)
    requires -0x1_0000_0000 <= x < 0x2_0000_0000
    ensures Wrap32(x) == if x < 0 then x + 0x1_0000_0000 else if x < 0x1_0000_0000 then x else x - 0x1_0000_0000
  {}

  /** A word congruent to x modulo 2^64 is x wrapped. */
  lemma WrapUnique(x: int, k: int, v: int)
    requires 0 <= v < 0x1_0000_0000_0000_0000 && x == k * 0x1_0000_0000_0000_0000 + v
    ensures Wrap64(x) == v
  {}

  // ---- straight-line helpers ----

  function Add(alo: u32, ahi: u32, blo: u32, bhi: u32): (r: Pair)
    ensures Val(r) == Wrap64(Val(Pair(alo, ahi)) + Val(Pair(blo, bhi)))
  {
    var lo := Wrap32(alo + blo);
    var carry := if lo < alo then 1 else 0;
    var r := Pair(lo, Wrap32(ahi + bhi + carry));
    WrapNear(alo + blo); WrapNear(ahi + bhi + carry);
    WrapUnique(Val(Pair(alo, ahi)) + Val(Pair(blo, bhi)), if ahi + bhi + carry < 0x1_0000_0000 then 0 else 1, Val(r));
    r
  }

  function Sub(alo: u32, ahi: u32, blo: u32, bhi: u32): (r: Pair)
    ensures Val(r) == Wrap64(Val(Pair(alo, ahi)) - Val(Pair(blo, bhi)))
  {
    var borrow := if alo < blo then 1 else 0;
    var r := Pair(Wrap32(alo - blo), Wrap32(ahi - bhi - borrow));
    WrapNear(alo - blo); WrapNear(ahi - bhi - borrow);
    WrapUnique(Val(Pair(alo, ahi)) - Val(Pair(blo, bhi)), if ahi - bhi - borrow < 0 then -1 else 0, Val(r));
    r
  }

  function Neg(lo: u32, hi: u32): (r: Pair)
    ensures Val(r) == Wrap64(-Val(Pair(lo, hi)))
  {
    var nlo := Wrap32(Not32(lo) + 1);
    var carry := if nlo == 0 then 1 else 0;
    var r := Pair(nlo, Wrap32(Not32(hi) + carry));
    WrapNear(Not32(lo) + 1); WrapNear(Not32(hi) + carry);
    WrapUnique(-Val(Pair(lo, hi)), if lo == 0 && hi == 0 then 0 else -1, Val(r));
    r
  }

  function Mul(alo: u32, ahi: u32, blo: u32, bhi: u32): (r: Pair)
    ensures Val(r) == Wrap64(Val(Pair(alo, ahi)) * Val(Pair(blo, bhi)))
  {
    var a0, a1 := Lo16(alo), Hi16(alo);
    var b0, b1 := Lo16(blo), Hi16(blo);
    var t00, t01 := Wrap32(a0 * b0), Wrap32(a0 * b1);
    var t10, t11 := Wrap32(a1 * b0), Wrap32(a1 * b1);
    var mid := Wrap32(Hi16(t00) + Lo16(t01) + Lo16(t10));
    MulWords(alo, ahi, blo, bhi);
    Pair(Or(Lo16(t00), Shl32(mid, 16)),
         Wrap32(t11 + Hi16(t01) + Hi16(t10) + Hi16(mid) + alo * bhi + ahi * blo))
  }

  lemma MulWords(alo: u32, ahi: u32, blo: u32, bhi: u32)
    ensures
      var a0, a1, b0, b1 := Lo16(alo), Hi16(alo), Lo16(blo), Hi16(blo);
      var t00, t01, t10, t11 := Wrap32(a0 * b0), Wrap32(a0 * b1), Wrap32(a1 * b0), Wrap32(a1 * b1);
      var mid := Wrap32(Hi16(t00) + Lo16(t01) + Lo16(t10));
      var lo := Or(Lo16(t00), Shl32(mid, 16));
      var hi := Wrap32(t11 + Hi16(t01) + Hi16(t10) + Hi16(mid) + alo * bhi + ahi * blo);
      lo < 0x1_0000_0000 && Val(Pair(lo, hi)) == Wrap64(Val(Pair(alo, ahi)) * Val(Pair(blo, bhi)))
  {
    var a0, a1, b0, b1 := Lo16(alo), Hi16(alo), Lo16(blo), Hi16(blo);
    HalfProducts(a0, a1, b0, b1);
    ProductWords(alo, ahi, blo, bhi, a0, a1, b0, b1,
                 Wrap32(a0 * b0), Wrap32(a0 * b1), Wrap32(a1 * b0), Wrap32(a1 * b1));
  }

  lemma OrWord(a: nat, b: nat)
    requires a < 0x1_0000_0000 && b < 0x1_0000_0000
    ensures Or(a, b) < 0x1_0000_0000
  {
    Pow2At32();
    OrBelow(a, b, 32);
  }

  lemma HalfProducts(a0: nat, a1: nat, b0: nat, b1: nat)
    requires a0 < 0x1_0000 && a1 < 0x1_0000 && b0 < 0x1_0000 && b1 < 0x1_0000
    ensures Wrap32(a0 * b0) == a0 * b0 && Wrap32(a0 * b1) == a0 * b1
    ensures Wrap32(a1 * b0) == a1 * b0 && Wrap32(a1 * b1) == a1 * b1
  {
    HalfProduct(a0, b0); HalfProduct(a0, b1); HalfProduct(a1, b0); HalfProduct(a1, b1);
  }

  lemma HalfProduct(x: nat, y: nat)
    requires x < 0x1_0000 && y < 0x1_0000
    ensures x * y < 0x1_0000_0000 && Wrap32(x * y) == x * y
  {
    MulBound(x, y, 0xffff, 0xffff);
  }

  /** The schoolbook product of 16-bit halves, with its carries, is the 64-bit product. */
  lemma ProductWords(alo: u32, ahi: u32, blo: u32, bhi: u32, a0: nat, a1: nat, b0: nat, b1: nat,
                     t00: u32, t01: u32, t10: u32, t11: u32)
    requires alo == a1 * 0x1_0000 + a0 && blo == b1 * 0x1_0000 + b0
    requires t00 == a0 * b0 && t01 == a0 * b1 && t10 == a1 * b0 && t11 == a1 * b1
    ensures
      var mid := Wrap32(Hi16(t00) + Lo16(t01) + Lo16(t10));
      var lo := Or(Lo16(t00), Shl32(mid, 16));
      var hi := Wrap32(t11 + Hi16(t01) + Hi16(t10) + Hi16(mid) + alo * bhi + ahi * blo);
      lo < 0x1_0000_0000 && Val(Pair(lo, hi)) == Wrap64(Val(Pair(alo, ahi)) * Val(Pair(blo, bhi)))
  {
    var mid := Wrap32(Hi16(t00) + Lo16(t01) + Lo16(t10));
    var lo := Or(Lo16(t00), Shl32(mid, 16));
    SplitProduct(alo, blo, a0, a1, b0, b1, 0x1_0000);
    CarryWords(t00, t01, t10, t11);
    var carry := t11 + Hi16(t01) + Hi16(t10) + Hi16(mid);
    FullProduct(alo, ahi, blo, bhi, carry, Pair(lo, Wrap32(carry + alo * bhi + ahi * blo)));
  }

  lemma CarryWords(t00: u32, t01: u32, t10: u32, t11: u32)
    ensures
      var mid := Wrap32(Hi16(t00) + Lo16(t01) + Lo16(t10));
      var lo := Or(Lo16(t00), Shl32(mid, 16));
      && lo < 0x1_0000_0000
      && t11 * 0x1_0000_0000 + (t01 + t10) * 0x1_0000 + t00
         == (t11 + Hi16(t01) + Hi16(t10) + Hi16(mid)) * 0x1_0000_0000 + lo
  {
    var sum := Hi16(t00) + Lo16(t01) + Lo16(t10);
    WrapNear(sum);
    JoinHalves(Lo16(t00), sum);
  }

  lemma JoinHalves(low: nat, mid: u32)
    requires low < 0x1_0000
    ensures Or(low, Shl32(mid, 16)) == Lo16(mid) * 0x1_0000 + low < 0x1_0000_0000
  {
    Pow2At16();
    Shl32KeepsLow(mid, 16);
    var m := mid % 0x1_0000;
    OrComm(low, m * 0x1_0000);
    MultipleOr(m, low, 0x1_0000, 16);
  }

  lemma SplitProduct(x: int, y: int, a0: int, a1: int, b0: int, b1: int, m: int)
    requires x == a1 * m + a0 && y == b1 * m + b0
    ensures x * y == a1 * b1 * (m * m) + (a0 * b1 + a1 * b0) * m + a0 * b0
  {
    var u, v := a1 * m, b1 * m;
    MulDistrib(u, a0, y);
    MulDistrib(v, b0, u);
    MulDistrib(v, b0, a0);
    SwapInner(a1, m, b1, m);
    MulAssoc(a1, m, b0); MulComm(m, b0); MulAssoc(a1, b0, m);
    MulAssoc(a0, b1, m);
    MulDistrib(a0 * b1, a1 * b0, m);
  }

  lemma FullProduct(alo: u32, ahi: u32, blo: u32, bhi: u32, low: nat, r: Pair)
    requires alo * blo == low * 0x1_0000_0000 + r.lo
    requires r.hi == Wrap32(low + alo * bhi + ahi * blo)
    ensures Val(r) == Wrap64(Val(Pair(alo, ahi)) * Val(Pair(blo, bhi)))
  {
    SplitProduct(Val(Pair(alo, ahi)), Val(Pair(blo, bhi)), alo, ahi, blo, bhi, 0x1_0000_0000);
    var p01, p10, p11 := alo * bhi, ahi * blo, ahi * bhi;
    var cross := low + p01 + p10;
    WrapUnique(p11 * 0x1_0000_0000_0000_0000 + cross * 0x1_0000_0000 + r.lo, p11 + cross / 0x1_0000_0000, Val(r));
  }

  // ---- shifts ----

  function ShiftLeft(lo: u32, hi: u32, amount: int): (r: Pair)
    ensures Val(r) == Shl64(Val(Pair(lo, hi)), amount % 64)
  {
    Pow2At32();
    var amt := amount % 64;
    if amt == 0 then
      Pow2At64();
      Pair(lo, hi)
    else if amt >= 32 then
      ShiftLeftFar(lo, hi, amt);
      Pair(0, Shl32(lo, amt - 32))
    else
      ShiftLeftNear(lo, hi, amt);
      Pair(Shl32(lo, amt), Or(Shl32(hi, amt), Shr(lo, 32 - amt)))
  }

  /** The low bits that survive a shift of a pair, seen from the high word. */
  lemma PairRemainder(lo: u32, hi: u32, m: nat)
    requires m > 0
    ensures Val(Pair(lo, hi)) % (0x1_0000_0000 * m) == 0x1_0000_0000 * (hi % m) + lo
    ensures Val(Pair(lo, hi)) / (0x1_0000_0000 * m) == hi / m
  {
    DivDiv(Val(Pair(lo, hi)), 0x1_0000_0000, m);
  }

  lemma ShiftLeftFar(lo: u32, hi: u32, amt: nat)
    requires 32 <= amt < 64
    ensures Shl32(lo, amt - 32) * 0x1_0000_0000 == Shl64(Val(Pair(lo, hi)), amt)
  {
    Pow2At32();
    var m, p := Pow2(64 - amt), Pow2(amt - 32);
    Pow2Add(64 - amt, amt - 32);
    Pow2Add(amt - 32, 32);
    Shl32KeepsLow(lo, amt - 32);
    Shl64KeepsLow(Val(Pair(lo, hi)), amt);
    MulAssoc(hi, p, m); MulComm(p, m);
    ModMultiple(lo, hi * p, m);
    MulAssoc(lo % m, p, 0x1_0000_0000);
  }

  lemma ShiftLeftNear(lo: u32, hi: u32, amt: nat)
    requires 0 < amt < 32
    ensures Or(Shl32(hi, amt), Shr(lo, 32 - amt)) < 0x1_0000_0000
    ensures Or(Shl32(hi, amt), Shr(lo, 32 - amt)) * 0x1_0000_0000 + Shl32(lo, amt)
         == Shl64(Val(Pair(lo, hi)), amt)
  {
    Pow2At32();
    var m, p := Pow2(32 - amt), Pow2(amt);
    Pow2Add(32 - amt, amt);
    Pow2Add(32, 32 - amt);
    Shl32KeepsLow(hi, amt);
    Shl32KeepsLow(lo, amt);
    Shl64KeepsLow(Val(Pair(lo, hi)), amt);
    var h, top := hi % m, lo / m;
    JoinShifted(lo, h, m, p, amt);
    MulMonotone(h, m, p);
    PairRemainder(lo, hi, m);
  }

  /** Shifting h:lo left by amt bits moves the top amt bits of lo under h. */
  lemma JoinShifted(lo: u32, h: nat, m: nat, p: nat, amt: nat)
    requires m > 0 && p == Pow2(amt) && m * p == 0x1_0000_0000
    ensures Or(h * p, lo / m) == h * p + lo / m && lo / m < p
    ensures (h * p + lo / m) * 0x1_0000_0000 + lo % m * p == (0x1_0000_0000 * h + lo) * p
  {
    MulComm(m, p);
    QuotientBelow(lo, m, p);
    MultipleOr(h, lo / m, p, amt);
    var top, bottom := lo / m, lo % m;
    DivModSplit(lo, m);
    ShiftedSum(top, bottom, h, m, p, 0x1_0000_0000);
  }

  lemma ShiftedSum(top: int, bottom: int, h: int, m: int, p: int, w: int)
    requires m * p == w
    ensures (h * p + top) * w + bottom * p == (w * h + (top * m + bottom)) * p
  {
    MulDistrib(w * h, top * m + bottom, p);
    MulDistrib(top * m, bottom, p);
    MulAssoc(top, m, p);
    MulAssoc(w, h, p);
    MulDistrib(h * p, top, w);
    MulComm(h * p, w);
  }

  function ShiftRight(lo: u32, hi: u32, amount: int): (r: Pair)
    ensures Val(r) == Shr(Val(Pair(lo, hi)), amount % 64)
  {
    Pow2At32();
    var amt := amount % 64;
    if amt == 0 then
      Pair(lo, hi)
    else if amt >= 32 then
      ShiftRightFar(lo, hi, amt);
      Pair(Shr(hi, amt - 32), 0)
    else
      ShiftRightNear(lo, hi, amt);
      Pair(Or(Shr(lo, amt), Shl32(hi, 32 - amt)), Shr(hi, amt))
  }

  lemma ShiftRightFar(lo: u32, hi: u32, amt: nat)
    requires 32 <= amt < 64
    ensures Shr(hi, amt - 32) == Shr(Val(Pair(lo, hi)), amt)
  {
    Pow2At32();
    Pow2Add(32, amt - 32);
    PairRemainder(lo, hi, Pow2(amt - 32));
  }

  lemma ShiftRightNear(lo: u32, hi: u32, amt: nat)
    requires 0 < amt < 32
    ensures Or(Shr(lo, amt), Shl32(hi, 32 - amt)) < 0x1_0000_0000
    ensures Shr(hi, amt) * 0x1_0000_0000 + Or(Shr(lo, amt), Shl32(hi, 32 - amt)) == Shr(Val(Pair(lo, hi)), amt)
  {
    Pow2At32();
    var m, p := Pow2(32 - amt), Pow2(amt);
    Pow2Add(32 - amt, amt);
    Shl32KeepsLow(hi, 32 - amt);
    RightJoin(lo, hi % p, m, p, 32 - amt);
    SplitQuotient(lo, hi, m, p);
  }

  lemma RightJoin(lo: u32, h: nat, m: nat, p: nat, k: nat)
    requires m == Pow2(k) && m * p == 0x1_0000_0000 && h < p
    ensures p > 0 && Or(lo / p, h * m) == h * m + lo / p < 0x1_0000_0000
  {
    QuotientBelow(lo, p, m);
    OrComm(lo / p, h * m);
    MultipleOr(h, lo / p, m, k);
    MulMonotone(h, p, m); MulComm(m, p);
  }

  lemma SplitQuotient(lo: u32, hi: int, m: nat, p: nat)
    requires p > 0 && m * p == 0x1_0000_0000
    ensures (hi * 0x1_0000_0000 + lo) / p == hi / p * 0x1_0000_0000 + hi % p * m + lo / p
  {
    var q, h, top := hi / p, hi % p, lo / p;
    MulDistrib(q * p, h, 0x1_0000_0000);
    MulAssoc(q, p, 0x1_0000_0000); MulComm(p, 0x1_0000_0000); MulAssoc(q, 0x1_0000_0000, p);
    MulAssoc(h, m, p);
    MulDistrib(q * 0x1_0000_0000 + h * m, top, p);
    MulDistrib(q * 0x1_0000_0000, h * m, p);
    DivModUnique(hi * 0x1_0000_0000 + lo, q * 0x1_0000_0000 + h * m + top, lo % p, p);
  }

  /** The signed number divided by a power of two, rounded toward minus infinity. */
  function ShiftRightSigned(lo: u32, hi: u32, amount: int): (r: Pair)
    ensures Signed(r) == Signed(Pair(lo, hi)) / Pow2(amount % 64)
  {
    var fill := if hi >= 0x8000_0000 then 0xffff_ffff else 0;
    var amt := amount % 64;
    if amt == 0 then
      Pair(lo, hi)
    else if amt >= 32 then
      SignedFar(lo, hi, amt);
      Pair(Wrap32(AsInt(hi) / Pow2(amt - 32)), fill)
    else
      SignedNear(lo, hi, amt);
      Pair(Or(Shr(lo, amt), Shl32(hi, 32 - amt)), Wrap32(AsInt(hi) / Pow2(amt)))
  }

  lemma SignedWords(p: Pair)
    ensures Signed(p) == AsInt(p.hi) * 0x1_0000_0000 + p.lo
  {
  }

  /** Dividing a word's signed value by a power of two keeps its sign and range. */
  lemma SignedQuotient(x: u32, p: nat)
    requires p > 0
    ensures AsInt(Wrap32(AsInt(x) / p)) == AsInt(x) / p && (AsInt(x) / p < 0 <==> x >= 0x8000_0000)
  {
    DivModSplit(AsInt(x), p);
    BoundedQuotient(AsInt(x), AsInt(x) / p, AsInt(x) % p, p);
    WrapNear(AsInt(x) / p);
  }

  lemma BoundedQuotient(s: int, q: int, h: int, p: int)
    requires s == q * p + h && 0 <= h < p && -0x8000_0000 <= s < 0x8000_0000
    ensures -0x8000_0000 <= q < 0x8000_0000 && (q < 0 <==> s < 0)
  {
    if q >= 0 {
      MulMonotone(1, p, q); MulComm(q, p);
    } else {
      MulMonotone(1, p, -1 - q); MulComm(-1 - q, p);
      MulDistrib(-1, q, p);
    }
  }

  lemma SignedFar(lo: u32, hi: u32, amt: nat)
    requires 32 <= amt < 64
    ensures Signed(Pair(Wrap32(AsInt(hi) / Pow2(amt - 32)), if hi >= 0x8000_0000 then 0xffff_ffff else 0))
      == Signed(Pair(lo, hi)) / Pow2(amt)
  {
    var s, p := AsInt(hi), Pow2(amt - 32);
    Pow2At32();
    Pow2Add(32, amt - 32);
    SignedWords(Pair(lo, hi));
    SignedQuotient(hi, p);
    DivModSplit(s, p);
    var q, h := s / p, s % p;
    MulDistrib(q * p, h, 0x1_0000_0000);
    MulAssoc(q, p, 0x1_0000_0000); MulComm(p, 0x1_0000_0000);
    MulMonotone(h + 1, p, 0x1_0000_0000); MulDistrib(h, 1, 0x1_0000_0000);
    DivModUnique(s * 0x1_0000_0000 + lo, q, h * 0x1_0000_0000 + lo, 0x1_0000_0000 * p);
    FarPair(q);
  }

  lemma FarPair(q: int)
    requires -0x8000_0000 <= q < 0x8000_0000
    ensures Signed(Pair(Wrap32(q), if q < 0 then 0xffff_ffff else 0)) == q
  {
    WrapNear(q);
  }

  lemma SameRemainder(x: u32, m: nat, p: nat)
    requires p > 0 && m * p == 0x1_0000_0000
    ensures AsInt(x) % p == x % p
  {
    if x >= 0x8000_0000 {
      var k: int := m;
      ModMultiple(x, -k, p);
      MulDistrib(0, k, p);
    }
  }

  lemma SignedNear(lo: u32, hi: u32, amt: nat)
    requires 0 < amt < 32
    ensures Or(Shr(lo, amt), Shl32(hi, 32 - amt)) < 0x1_0000_0000
    ensures Signed(Pair(Or(Shr(lo, amt), Shl32(hi, 32 - amt)), Wrap32(AsInt(hi) / Pow2(amt)))) == Signed(Pair(lo,
        hi)) / Pow2(amt)
  {
    Pow2At32();
    var m, p, s := Pow2(32 - amt), Pow2(amt), AsInt(hi);
    Pow2Add(32 - amt, amt);
    Shl32KeepsLow(hi, 32 - amt);
    RightJoin(lo, hi % p, m, p, 32 - amt);
    SameRemainder(hi, m, p);
    SplitQuotient(lo, s, m, p);
    SignedWords(Pair(lo, hi));
    SignedQuotient(hi, p);
    SignedWords(Pair(Or(Shr(lo, amt), Shl32(hi, 32 - amt)), Wrap32(s / p)));
  }

  // ---- comparison ----

  function UnsignedCmp(alo: u32, ahi: u32, blo: u32, bhi: u32): (r: int)
    ensures r == -1 <==> Val(Pair(alo, ahi)) < Val(Pair(blo, bhi))
    ensures r == 0 <==> Val(Pair(alo, ahi)) == Val(Pair(blo, bhi))
    ensures r == 1 <==> Val(Pair(alo, ahi)) > Val(Pair(blo, bhi))
  {
    if ahi < bhi then -1 else if ahi > bhi then 1
    else if alo < blo then -1 else if alo > blo then 1 else 0
  }

  function AsInt(x: u32): int { if x < 0x8000_0000 then x else x - 0x1_0000_0000 }

  function SignedCmp(alo: u32, ahi: u32, blo: u32, bhi: u32): (r: int)
    ensures r == -1 <==> Signed(Pair(alo, ahi)) < Signed(Pair(blo, bhi))
    ensures r == 0 <==> Signed(Pair(alo, ahi)) == Signed(Pair(blo, bhi))
    ensures r == 1 <==> Signed(Pair(alo, ahi)) > Signed(Pair(blo, bhi))
  {
    if AsInt(ahi) < AsInt(bhi) then -1 else if AsInt(ahi) > AsInt(bhi) then 1
    else if alo < blo then -1 else if alo > blo then 1 else 0
  }

  // ---- division ----

  /** Restoring shift-subtract division, one bit of the dividend at a time. A zero divisor
      is not refused: the quotient is then all ones and the remainder the dividend. */
  method UDivMod(alo: u32, ahi: u32, blo: u32, bhi: u32) returns (q: Pair, r: Pair)
    ensures Val(Pair(alo, ahi)) == Val(q) * Val(Pair(blo, bhi)) + Val(r)
    ensures Val(Pair(blo, bhi)) > 0 ==> Val(r) < Val(Pair(blo, bhi))
    ensures Val(Pair(blo, bhi)) == 0 ==> Val(q) == 0xffff_ffff_ffff_ffff
  {
    ghost var a, b := Val(Pair(alo, ahi)), Val(Pair(blo, bhi));
    q, r := Pair(0, 0), Pair(0, 0);
    var i := 63;
    FirstStep(a, b);
    while i >= 0
      invariant -1 <= i <= 63
      invariant DivStep(a, b, Val(q), Val(r), i + 1)
      // what makes the left shift lossless
      invariant Val(r) < Pow2(63 - i)
    {
      ghost var q0, r0 := q, r;
      r := ShiftInBit(alo, ahi, r.lo, r.hi, i);
      NextRemainder(a, b, Val(q0), Val(r0), Val(r), i);
      if r.hi > bhi || (r.hi == bhi && r.lo >= blo) {
        r := SubtractDivisor(r, blo, bhi);
        q := SetQuotientBit(q, i);
      }
      i := i - 1;
    }
    FinalStep(a, b, Val(q), Val(r));
  }

  method SubtractDivisor(r: Pair, blo: u32, bhi: u32) returns (d: Pair)
    requires Val(r) >= Val(Pair(blo, bhi))
    ensures Val(d) == Val(r) - Val(Pair(blo, bhi))
  {
    var borrow := 0;
    if r.lo < blo { borrow := 1; }
    WrapNear(r.lo - blo); WrapNear(r.hi - bhi - borrow);
    d := Pair(Wrap32(r.lo - blo), Wrap32(r.hi - bhi - borrow));
  }

  /** After the bits at positions k and above: they equal quotient times divisor plus remainder. */
  ghost predicate DivStep(a: nat, b: nat, q: nat, r: nat, k: nat) {
    && q % Pow2(k) == 0
    && a / Pow2(k) == q / Pow2(k) * b + r
    && (b > 0 ==> r < b)
    && (b == 0 ==> q == 0x1_0000_0000_0000_0000 - Pow2(k))
  }

  lemma FirstStep(a: nat, b: nat)
    requires a < 0x1_0000_0000_0000_0000
    ensures DivStep(a, b, 0, 0, 64)
  {
    Pow2At64();
  }

  lemma FinalStep(a: nat, b: nat, q: nat, r: nat)
    requires DivStep(a, b, q, r, 0)
    ensures a == q * b + r && (b > 0 ==> r < b) && (b == 0 ==> q == 0xffff_ffff_ffff_ffff)
  {
    assert a / 1 == a && q / 1 == q;
  }

  method ShiftInBit(alo: u32, ahi: u32, rlo: u32, rhi: u32, i: nat) returns (r: Pair)
    requires i < 64 && Val(Pair(rlo, rhi)) < Pow2(63 - i)
    ensures Val(r) == 2 * Val(Pair(rlo, rhi)) + Val(Pair(alo, ahi)) / Pow2(i) % 2
  {
    RemainderFits(Val(Pair(rlo, rhi)), i);
    DoubleWords(rlo, rhi);
    var hi := Or(Shl32(rhi, 1), Shr(rlo, 31));
    var lo := Shl32(rlo, 1);
    var bit: nat;
    if i >= 32 {
      bit := And(Shr(ahi, i - 32), 1);
      AndOne(Shr(ahi, i - 32));
      ShiftRightFar(alo, ahi, i);
    } else {
      bit := And(Shr(alo, i), 1);
      AndOne(Shr(alo, i));
      LowBit(alo, ahi, i);
    }
    Pow2At8();
    OrDisjoint(lo, bit, 1);
    r := Pair(Or(lo, bit), hi);
  }

  lemma RemainderFits(r: nat, i: nat)
    requires i < 64 && r < Pow2(63 - i)
    ensures r < 0x8000_0000_0000_0000
  {
    Pow2Monotone(63 - i, 63);
    Pow2At64();
    assert Pow2(64) == 2 * Pow2(63);
  }

  lemma DoubleWords(rlo: u32, rhi: u32)
    requires rhi < 0x8000_0000
    ensures Or(Shl32(rhi, 1), Shr(rlo, 31)) < 0x1_0000_0000
    ensures Or(Shl32(rhi, 1), Shr(rlo, 31)) * 0x1_0000_0000 + Shl32(rlo, 1) == 2 * Val(Pair(rlo, rhi))
    ensures Shl32(rlo, 1) % 2 == 0 && Shl32(rlo, 1) <= 0xffff_fffe
  {
    TopBit(rlo);
    Doubled(rlo); Doubled(rhi);
    Pow2At8();
    MultipleOr(rhi, rlo / 0x8000_0000, 2, 1);
  }

  lemma Doubled(x: u32)
    ensures Shl32(x, 1) == if x < 0x8000_0000 then 2 * x else 2 * x - 0x1_0000_0000
  {
    Pow2At8(); Pow2At32();
  }

  lemma TopBit(x: u32)
    ensures Shr(x, 31) == x / 0x8000_0000
  {
    Pow2At32();
    assert Pow2(32) == 2 * Pow2(31);
  }

  lemma LowBit(lo: u32, hi: u32, i: nat)
    requires i < 32
    ensures lo / Pow2(i) % 2 == Val(Pair(lo, hi)) / Pow2(i) % 2
  {
    Pow2At32();
    var p, m := Pow2(i), Pow2(31 - i);
    Pow2Add(i, 32 - i);
    MulComm(2 * m, p);
    MulAssoc(hi, 2 * m, p);
    ModMultiple(lo, hi * (2 * m), p);
    MulAssoc(hi, m, 2); MulComm(m, 2);
    ModMultiple(lo / p, hi * m, 2);
  }

  lemma NextRemainder(a: nat, b: nat, q: nat, r: nat, r1: nat, i: nat)
    requires i < 64 && a < 0x1_0000_0000_0000_0000
    requires DivStep(a, b, q, r, i + 1) && r < Pow2(63 - i)
    requires r1 == 2 * r + a / Pow2(i) % 2
    ensures r1 < Pow2(64 - i)
    ensures r1 < b ==> DivStep(a, b, q, r1, i)
    ensures r1 >= b ==> DivStep(a, b, q + Pow2(i), r1 - b, i)
    ensures q % Pow2(i + 1) == 0 && q <= 0x1_0000_0000_0000_0000 - Pow2(i + 1)
  {
    var p := Pow2(i);
    MulComm(p, 2);
    DivDiv(a, p, 2);
    DivDiv(q, p, 2);
    var h := q / (p * 2);
    MulDistrib(h, h, b);
    MulDistrib(2 * h, 1, b);
    assert q == q / p * p;
    MulDistrib(2 * h, 1, p);
    DivModUnique(q + p, 2 * h + 1, 0, p);
    QuotientFits(a, b, q, r, i);
  }

  /** The quotient so far leaves room for the bit that may still be set at position i. */
  lemma QuotientFits(a: nat, b: nat, q: nat, r: nat, i: nat)
    requires i < 64 && a < 0x1_0000_0000_0000_0000 && DivStep(a, b, q, r, i + 1)
    ensures q <= 0x1_0000_0000_0000_0000 - Pow2(i + 1)
  {
    var p := Pow2(i + 1);
    if b > 0 {
      Pow2At64();
      Pow2Add(i + 1, 63 - i);
      var m := Pow2(63 - i);
      MulComm(p, m);
      QuotientBelow(a, p, m);
      RoomBelow(q / p, b, r, m, p);
    }
  }

  lemma RoomBelow(t: nat, b: nat, r: nat, m: nat, p: nat)
    requires b > 0 && t * b + r < m
    ensures t * p + p <= m * p
  {
    MulMonotone(1, b, t); MulComm(b, t);
    MulMonotone(t, m, p);
  }

  method SetQuotientBit(q: Pair, i: nat) returns (r: Pair)
    requires i < 64
    requires Val(q) % Pow2(i + 1) == 0
    requires Val(q) <= 0x1_0000_0000_0000_0000 - Pow2(i + 1)
    ensures Val(r) == Val(q) + Pow2(i)
  {
    if i >= 32 {
      HighBitFree(q, i);
      r := Pair(q.lo, Or(q.hi, Shl32(1, i - 32)));
    } else {
      LowBitFree(q, i);
      r := Pair(Or(q.lo, Shl32(1, i)), q.hi);
    }
  }

  lemma HighBitFree(q: Pair, i: nat)
    requires 32 <= i < 64 && Val(q) % Pow2(i + 1) == 0
    ensures Or(q.hi, Shl32(1, i - 32)) < 0x1_0000_0000
    ensures Or(q.hi, Shl32(1, i - 32)) * 0x1_0000_0000 == q.hi * 0x1_0000_0000 + Pow2(i)
  {
    Pow2At32();
    Pow2Add(32, i - 31);
    PairRemainder(q.lo, q.hi, Pow2(i - 31));
    ShlOne(i - 32);
    OrDisjoint(q.hi, Pow2(i - 32), i - 31);
    Pow2Add(32, i - 32);
    OrWord(q.hi, Pow2(i - 32));
  }

  lemma LowBitFree(q: Pair, i: nat)
    requires i < 32 && Val(q) % Pow2(i + 1) == 0
    ensures Or(q.lo, Shl32(1, i)) < 0x1_0000_0000
    ensures Or(q.lo, Shl32(1, i)) == q.lo + Pow2(i)
  {
    Pow2At32();
    var p, m := Pow2(i + 1), Pow2(31 - i);
    Pow2Add(i + 1, 31 - i);
    MulAssoc(q.hi, m, p); MulComm(m, p);
    ModMultiple(q.lo, q.hi * m, p);
    ShlOne(i);
    OrDisjoint(q.lo, Pow2(i), i + 1);
    OrWord(q.lo, Pow2(i));
  }

  lemma ShlOne(i: nat)
    requires i < 32
    ensures Shl32(1, i) == Pow2(i) < 0x1_0000_0000
  {
    Pow2At32();
    Pow2Monotone(i, 32);
  }

  /** Two's complement negation as the signed helpers write it: complement, then add one. */
  method Negate(lo: u32, hi: u32) returns (r: Pair)
    ensures Val(r) == Wrap64(-Val(Pair(lo, hi)))
  {
    var c := 0;
    if lo == 0 { c := 1; }
    r := Pair(Wrap32(Not32(lo) + 1), Wrap32(Not32(hi) + c));
    WrapNear(Not32(lo) + 1); WrapNear(Not32(hi) + c);
    WrapUnique(-Val(Pair(lo, hi)), if lo == 0 && hi == 0 then 0 else -1, Val(r));
  }

  /** The absolute value of a two's complement pair, read as unsigned. */
  method Magnitude(lo: u32, hi: u32) returns (r: Pair)
    ensures var v := Signed(Pair(lo, hi)); Val(r) == if v >= 0 then v else -v
  {
    r := Pair(lo, hi);
    if hi >= 0x8000_0000 { r := Negate(lo, hi); }
  }

  /** What dividing the magnitudes of x and y says of the signed quotient and remainder. */
  ghost predicate Divides(x: int, y: int, q: int, m: int) {
    forall z: int :: Shown(z, x, q) ==>
      if y == 0 then q == 0xffff_ffff_ffff_ffff && m == Size(x)
      else TruncDiv(x, y) == (if (x >= 0) == (y >= 0) then q else -q) && TruncMod(x, y) == (if x >= 0 then m else -m)
  }

  function Size(x: int): nat { if x >= 0 then x else -x }

  lemma DividesIs(x: int, y: int, q: int, m: int)
    requires Size(x) == q * Size(y) + m && (Size(y) > 0 ==> 0 <= m < Size(y))
    requires Size(y) == 0 ==> q == 0xffff_ffff_ffff_ffff
    ensures Divides(x, y, q, m)
  {
    if y != 0 {
      QuotientSign(x, y, q, m);
      DivModUnique(Size(x), q, m, Size(y));
      RemainderSign(x, y);
    } else {
      assert q * Size(y) == 0;
    }
  }

  method Divided(alo: u32, ahi: u32, blo: u32, bhi: u32) returns (q: Pair, m: Pair)
    ensures Divides(Signed(Pair(alo, ahi)), Signed(Pair(blo, bhi)), Val(q), Val(m))
  {
    var a := Magnitude(alo, ahi);
    var b := Magnitude(blo, bhi);
    q, m := UDivMod(a.lo, a.hi, b.lo, b.hi);
    DividesIs(Signed(Pair(alo, ahi)), Signed(Pair(blo, bhi)), Val(q), Val(m));
  }

  method WithSign(p: Pair, negative: bool) returns (r: Pair)
    ensures Val(r) == if negative then Wrap64(-Val(p)) else Wrap64(Val(p))
  {
    r := p;
    if negative { r := Negate(p.lo, p.hi); } else { WrapUnique(Val(p), 0, Val(p)); }
  }

  /** Division toward zero. Dividing by zero gives -1, or 1 for a negative dividend. */
  method SignedDiv(alo: u32, ahi: u32, blo: u32, bhi: u32) returns (r: Pair)
    ensures QuotientOf(Signed(Pair(alo, ahi)), Signed(Pair(blo, bhi)), Val(r))
  {
    var q, m := Divided(alo, ahi, blo, bhi);
    r := WithSign(q, (ahi >= 0x8000_0000) != (bhi >= 0x8000_0000));
    QuotientIs(Signed(Pair(alo, ahi)), Signed(Pair(blo, bhi)), Val(q), Val(m), Val(r));
  }

  predicate QuotientOf(x: int, y: int, r: int) {
    r == Wrap64(if y != 0 then TruncDiv(x, y) else if x < 0 then 1 else -1)
  }

  lemma QuotientIs(x: int, y: int, q: int, m: int, r: int)
    requires Divides(x, y, q, m) && r == if (x < 0) != (y < 0) then Wrap64(-q) else Wrap64(q)
    ensures QuotientOf(x, y, r)
  {
    assert Shown(0, x, q);
    WrapUnique(-0xffff_ffff_ffff_ffff, -1, 1);
    WrapUnique(-1, -1, 0xffff_ffff_ffff_ffff);
  }

  lemma QuotientSign(a: int, b: int, q: int, m: int)
    requires b != 0
    requires var n, d := if a >= 0 then a else -a, if b >= 0 then b else -b; n == q * d + m && 0 <= m < d
    ensures TruncDiv(a, b) == if (a >= 0) == (b >= 0) then q else -q
  {
    var n, d := if a >= 0 then a else -a, if b >= 0 then b else -b;
    DivModUnique(n, q, m, d);
  }

  /** The remainder, with the dividend's sign; by zero it is the dividend. */
  method SignedMod(alo: u32, ahi: u32, blo: u32, bhi: u32) returns (r: Pair)
    ensures RemainderOf(Signed(Pair(alo, ahi)), Signed(Pair(blo, bhi)), Val(r))
  {
    var q, m := Divided(alo, ahi, blo, bhi);
    r := WithSign(m, ahi >= 0x8000_0000);
    RemainderIs(Signed(Pair(alo, ahi)), Signed(Pair(blo, bhi)), Val(q), Val(m), Val(r));
  }

  predicate RemainderOf(x: int, y: int, r: int) { r == Wrap64(if y != 0 then TruncMod(x, y) else x) }

  lemma RemainderIs(x: int, y: int, q: int, m: int, r: int)
    requires Divides(x, y, q, m) && r == if x < 0 then Wrap64(-m) else Wrap64(m)
    ensures RemainderOf(x, y, r)
  {
    assert Shown(0, x, q);
  }

  lemma RemainderSign(a: int, b: int)
    requires b != 0
    ensures var m := if b > 0 then b else -b;
      TruncMod(a, b) == if a >= 0 then a % m else -(-a % m)
  {
    var m := if b > 0 then b else -b;
    var n := if a >= 0 then a else -a;
    assert n == n / m * m + n % m;
    assert (-(n / m)) * b == n / m * -b;
    assert (-(n / m)) * b == -(n / m * b);
  }
}
