/** Binary64 encodings and the sticky shifts of the soft-float runtime.

    A C `x >> k` is written as a quotient, `x & (2^k - 1)` as a remainder, `|` as `Or`, and every
    operation that can leave 64 bits wraps. */
module FloatBits {
  import opened Words
  import opened Ieee754

  // ---- encodings ----

  function Sign(x: u64): nat { x / 0x8000_0000_0000_0000 }
  function Exp(x: u64): nat { x / 0x10_0000_0000_0000 % 2048 }
  function Frac(x: u64): nat { x % 0x10_0000_0000_0000 }

  /** The encoding without its sign. */
  function Code(x: u64): nat { x % 0x8000_0000_0000_0000 }

  const QNAN: u64 := 0x7ff8_0000_0000_0000

  predicate IsNan(x: u64) { Exp(x) == 2047 && Frac(x) != 0 }
  predicate IsInf(x: u64) { Exp(x) == 2047 && Frac(x) == 0 }
  predicate IsZero(x: u64) { Shl64(x, 1) == 0 }
  ghost predicate Finite(x: u64) { Code(x) < INF }

  lemma Fields(x: u64)
    ensures x == Sign(x) * 0x8000_0000_0000_0000 + Code(x) && Sign(x) <= 1
    ensures Code(x) == Exp(x) * 0x10_0000_0000_0000 + Frac(x)
  {
  }

  lemma Classes(x: u64)
    ensures IsNan(x) <==> Code(x) > INF
    ensures IsInf(x) <==> Code(x) == INF
    ensures IsZero(x) <==> Code(x) == 0
  {
    Fields(x);
    Pow2At8();
  }

  /** `(sign << 63) | (expbits << 52) | frac`. */
  function Assemble(sign: nat, expbits: nat, frac: nat): (r: u64)
    requires sign <= 1 && expbits < 2048 && frac < 0x10_0000_0000_0000
    ensures Sign(r) == sign && Code(r) == expbits * 0x10_0000_0000_0000 + frac
  {
    AssembleSum(sign, expbits, frac);
    Or(Or(sign * 0x8000_0000_0000_0000, expbits * 0x10_0000_0000_0000), frac)
  }

  lemma AssembleSum(sign: nat, expbits: nat, frac: nat)
    requires sign <= 1 && expbits < 2048 && frac < 0x10_0000_0000_0000
    ensures Or(Or(sign * 0x8000_0000_0000_0000, expbits * 0x10_0000_0000_0000), frac)
         == sign * 0x8000_0000_0000_0000 + expbits * 0x10_0000_0000_0000 + frac
  {
    Pow2At52(); Pow2At63();
    MultipleOr(sign, expbits * 0x10_0000_0000_0000, 0x8000_0000_0000_0000, 63);
    MultipleOr(sign * 2048 + expbits, frac, 0x10_0000_0000_0000, 52);
  }

  lemma Pow2At52() ensures Pow2(52) == 0x10_0000_0000_0000 {
    Pow2At8();
    Pow2Add(8, 8); Pow2Add(16, 16); Pow2Add(32, 16); Pow2Add(48, 4);
  }

  lemma Pow2At63() ensures Pow2(63) == 0x8000_0000_0000_0000 {
    Pow2At64();
    assert Pow2(64) == 2 * Pow2(63);
  }

  // ---- shifting right with a sticky bit ----

  /** v / 2^k, with the last bit forced to one when a nonzero bit is lost. */
  function Jam(v: nat, k: nat): nat {
    if v % Pow2(k) == 0 then Shr(v, k) else Shr(v, k) + 1 - Shr(v, k) % 2
  }

  function ShiftRightJam(v: u64, dist: int): (r: u64)
    ensures r == if dist <= 0 then v else Jam(v, dist)
  {
    if dist <= 0 then v
    else if dist >= 63 then
      FarJam(v, dist);
      if v != 0 then 1 else 0
    else
      LostBits(v, dist);
      OrOne(Shr(v, dist));
      if Shl64(v, 64 - dist) != 0 then Or(Shr(v, dist), 1) else Shr(v, dist)
  }

  /** The bits shifted out are nonzero exactly when the opposite shift leaves something. */
  lemma LostBits(v: u64, dist: nat)
    requires dist <= 64
    ensures Shl64(v, 64 - dist) != 0 <==> v % Pow2(dist) != 0
  {
    Shl64KeepsLow(v, 64 - dist);
    var s, p := v % Pow2(dist), Pow2(64 - dist);
    if s != 0 { MulMonotone(1, s, p); }
  }

  lemma FarJam(v: nat, dist: nat)
    requires dist >= 63 && v < 0x1_0000_0000_0000_0000
    ensures Jam(v, dist) == if v != 0 then 1 else 0
  {
    Pow2At63();
    Pow2Monotone(63, dist);
    var p := Pow2(dist);
    if v < p { DivModUnique(v, 0, v, p); } else { DivModUnique(v, 1, v - p, p); }
  }

  function ShiftRightJam128(hi: u64, lo: u64, dist: int): (r: u64)
    requires 0 < dist < 64 ==> hi < Pow2(dist)
    ensures r == if dist <= 0 then lo else Jam(hi * 0x1_0000_0000_0000_0000 + lo, dist)
  {
    if dist <= 0 then lo
    else if dist < 64 then
      NearJam128(hi, lo, dist);
      var shifted := Or(Shr(lo, dist), Shl64(hi, 64 - dist));
      if lo % Pow2(dist) != 0 then Or(shifted, 1) else shifted
    else
      var hdist := dist - 64;
      FarJam128(hi, lo, hdist);
      if hdist >= 63 then (if hi != 0 || lo != 0 then 1 else 0)
      else
        OrOne(Shr(hi, hdist));
        if lo != 0 || hi % Pow2(hdist) != 0 then Or(Shr(hi, hdist), 1) else Shr(hi, hdist)
  }

  lemma NearJam128(hi: u64, lo: u64, dist: nat)
    requires 0 < dist < 64 && hi < Pow2(dist)
    ensures var shifted := Or(Shr(lo, dist), Shl64(hi, 64 - dist));
      && shifted < 0x1_0000_0000_0000_0000 && Or(shifted, 1) < 0x1_0000_0000_0000_0000
      && Jam(hi * 0x1_0000_0000_0000_0000 + lo, dist)
         == if lo % Pow2(dist) != 0 then Or(shifted, 1) else shifted
  {
    JoinWords(hi, lo, dist);
    var x := hi * 0x1_0000_0000_0000_0000 + lo;
    LowWordShift(hi, lo, dist, x);
    JamIs(x, dist, Or(Shr(lo, dist), Shl64(hi, 64 - dist)));
  }

  lemma JamIs(x: nat, dist: nat, s: nat)
    requires Shr(x, dist) == s < 0x1_0000_0000_0000_0000
    ensures Jam(x, dist) == if x % Pow2(dist) != 0 then Or(s, 1) else s
    ensures Or(s, 1) < 0x1_0000_0000_0000_0000
  {
    OrOne(s);
  }

  lemma JoinWords(hi: u64, lo: u64, dist: nat)
    requires 0 < dist < 64 && hi < Pow2(dist)
    ensures Or(Shr(lo, dist), Shl64(hi, 64 - dist)) == hi * Pow2(64 - dist) + Shr(lo, dist)
         < 0x1_0000_0000_0000_0000
  {
    var p, m := Pow2(dist), Pow2(64 - dist);
    Pow2At64();
    Pow2Add(64 - dist, dist);
    Shl64KeepsLow(hi, 64 - dist);
    DivModUnique(hi, 0, hi, p);
    QuotientBelow(lo, p, m);
    OrComm(Shr(lo, dist), hi * m);
    MultipleOr(hi, Shr(lo, dist), m, 64 - dist);
    MulMonotone(hi, p, m); MulComm(p, m);
  }

  lemma LowWordShift(hi: u64, lo: u64, dist: nat, x: nat)
    requires dist <= 64 && x == hi * 0x1_0000_0000_0000_0000 + lo
    ensures Shr(x, dist) == hi * Pow2(64 - dist) + Shr(lo, dist)
    ensures x % Pow2(dist) == lo % Pow2(dist)
  {
    var p, m := Pow2(dist), Pow2(64 - dist);
    Pow2At64();
    Pow2Add(64 - dist, dist);
    MulAssoc(hi, m, p);
    ModMultiple(lo, hi * m, p);
  }

  lemma FarJam128(hi: u64, lo: u64, hdist: nat)
    ensures Jam(hi * 0x1_0000_0000_0000_0000 + lo, hdist + 64)
         == if hdist >= 63 then (if hi != 0 || lo != 0 then 1 else 0)
            else if lo != 0 || hi % Pow2(hdist) != 0 then Shr(hi, hdist) + 1 - Shr(hi, hdist) % 2
            else Shr(hi, hdist)
  {
    var x := hi * 0x1_0000_0000_0000_0000 + lo;
    HighWordShift(hi, lo, hdist, x);
    if hdist >= 63 { FarJam(hi, hdist); }
  }

  lemma HighWordShift(hi: u64, lo: u64, hdist: nat, x: nat)
    requires x == hi * 0x1_0000_0000_0000_0000 + lo
    ensures Shr(x, hdist + 64) == Shr(hi, hdist)
    ensures x % Pow2(hdist + 64) == 0 <==> lo == 0 && hi % Pow2(hdist) == 0
  {
    Pow2At64();
    Pow2Add(64, hdist);
    DivDiv(x, 0x1_0000_0000_0000_0000, Pow2(hdist));
    DivModUnique(x, hi, lo, 0x1_0000_0000_0000_0000);
  }
}
