/** Packing: from a sign, an exponent and a long mantissa with guard, round and sticky bits to
    the rounded encoding.

    A mantissa m at exponent e stands for m units of 2^(e - 55). The exact number being packed is
    v / w of these units, and m is what is left of it after sticky shifts: they agree on every
    comparison with a multiple of the granularity g. Rounding only looks at multiples of four. */
module FloatPack {
  import opened Words
  import opened Ieee754
  import opened FloatBits

  /** m and v / w lie on the same side of every multiple of g. */
  ghost predicate SameSide(m: nat, v: nat, w: nat, g: nat)
    requires g > 0
  {
    var q, u := m / g, g * w;
    q * u <= v < q * u + u && (m % g == 0 <==> v == q * u)
  }

  /** What a mantissa must satisfy to be packed: one sticky bit at most has been merged into its
      last bit, and then the mantissa is long enough to be shifted left no more than once. */
  ghost predicate Faithful(m: nat, v: nat, w: nat) {
    SameSide(m, v, w, 2) && (m >= 0x40_0000_0000_0000 || v == m * w)
  }

  // ---- how shifts keep the two sides together ----

  lemma ExactIsSameSide(m: nat, v: nat, w: nat, g: nat)
    requires g > 0 && w > 0 && v == m * w
    ensures SameSide(m, v, w, g)
  {
    var q, s, u := m / g, m % g, g * w;
    DivModSplit(m, g);
    MulDistrib(q * g, s, w);
    MulAssoc(q, g, w);
    MulMonotone(s, g, w);
    if s > 0 { MulMonotone(1, s, w); }
  }

  /** A shift right that jams the lost bits into the last one. */
  lemma JamKeepsSide(m: nat, v: nat, w: nat, g: nat, k: nat)
    requires (g == 2 || g == 4) && SameSide(m, v, w, g)
    ensures SameSide(Jam(m, k), v, w * Pow2(k), g)
  {
    var p, m', u := Pow2(k), Jam(m, k), g * w;
    JamQuotient(m, g, k);
    MulAssoc(g, w, p);
    SplitSteps(m / g, v, u, p);
  }

  /** Quotient and remainder of a jammed value by an even granularity. */
  lemma JamQuotient(m: nat, g: nat, k: nat)
    requires g == 2 || g == 4
    ensures Jam(m, k) / g == m / g / Pow2(k)
    ensures Jam(m, k) % g == 0 <==> m % g == 0 && m / g % Pow2(k) == 0
  {
    var p, q := Pow2(k), Shr(m, k);
    JamLastBit(m, g, k);
    DivDiv(m, p, g);
    DivDiv(m, g, p);
    MulComm(p, g);
    RemaindersAgree(m % p, q % g, p, m % g, m / g % p, g);
  }

  lemma JamLastBit(m: nat, g: nat, k: nat)
    requires g == 2 || g == 4
    ensures Jam(m, k) / g == Shr(m, k) / g
    ensures Jam(m, k) % g == 0 <==> Shr(m, k) % g == 0 && m % Pow2(k) == 0
  {
    var q, lost := Shr(m, k), m % Pow2(k) != 0;
    assert Jam(m, k) == if lost then q + 1 - q % 2 else q;
    if g == 2 { LastBitOfTwo(q); } else { LastBitOfFour(q); }
  }

  lemma LastBitOfTwo(q: nat)
    ensures (q + 1 - q % 2) / 2 == q / 2 && (q + 1 - q % 2) % 2 != 0
  {}

  lemma LastBitOfFour(q: nat)
    ensures (q + 1 - q % 2) / 4 == q / 4 && (q + 1 - q % 2) % 4 != 0
  {}

  lemma RemaindersAgree(a: nat, b: nat, p: nat, c: nat, d: nat, g: nat)
    requires p > 0 && g > 0 && p * b + a == g * d + c
    ensures (a == 0 && b == 0) <==> (c == 0 && d == 0)
  {
    if b > 0 { MulMonotone(1, b, p); MulComm(b, p); }
    if d > 0 { MulMonotone(1, d, g); MulComm(d, g); }
  }

  /** Counting v in steps of u, and then in steps of u * p. */
  lemma SplitSteps(q: nat, v: nat, u: nat, p: nat)
    requires p > 0 && q * u <= v < q * u + u
    ensures var q' := q / p; q' * (u * p) <= v < q' * (u * p) + u * p
    ensures v == q / p * (u * p) <==> v == q * u && q % p == 0
  {
    var q', s := q / p, q % p;
    DivModSplit(q, p);
    MulDistrib(q' * p, s, u);
    MulAssoc(q', p, u); MulComm(p, u);
    MulMonotone(s, p, u);
    MulMonotone(0, s, u);
    if s > 0 { MulMonotone(1, s, u); }
  }

  /** Agreement on multiples of two is agreement on multiples of four. */
  lemma Coarser(m: nat, v: nat, w: nat)
    requires SameSide(m, v, w, 2)
    ensures SameSide(m, v, w, 4)
  {
    SplitSteps(m / 2, v, 2 * w, 2);
  }

  /** A shift left by one doubles the granularity. */
  lemma DoubleSide(m: nat, v: nat, w: nat)
    requires SameSide(m, v, 2 * w, 2)
    ensures SameSide(2 * m, v, w, 4)
  {
    assert 2 * m / 4 == m / 2;
  }

  // ---- the unit at an exponent ----

  /** One unit of a mantissa at exponent e, in units of b * 2^-k. */
  ghost function Unit(b: nat, k: nat, e: int): nat
    requires e + k >= 0
  {
    b * Pow2(e + k)
  }

  lemma UnitStep(b: nat, k: nat, e: int, d: nat)
    requires e + k >= 0
    ensures Unit(b, k, e + d) == Unit(b, k, e) * Pow2(d)
  {
    Pow2Add(e + k, d);
    MulAssoc(b, Pow2(e + k), Pow2(d));
  }

  // ---- packing ----

  /** Brings a mantissa below 2^56. */
  method Narrow(exp: int, mant: u64, ghost v: nat, ghost b: nat, ghost k: nat) returns (e: int, m: u64)
    requires b > 0 && exp + k >= 0 && mant > 0 && Faithful(mant, v, Unit(b, k, exp))
    ensures e >= exp && 0 < m < 0x100_0000_0000_0000 && Faithful(m, v, Unit(b, k, e))
  {
    e, m := exp, mant;
    while m >= 0x100_0000_0000_0000
      invariant e >= exp && m > 0 && Faithful(m, v, Unit(b, k, e))
      decreases m
    {
      NarrowStep(m, v, b, k, e);
      var sticky := m % 2;
      m := m / 2;
      if sticky != 0 { m := Or(m, 1); }
      e := e + 1;
    }
  }

  lemma NarrowStep(m: nat, v: nat, b: nat, k: nat, e: int)
    requires e + k >= 0 && m >= 0x100_0000_0000_0000 && SameSide(m, v, Unit(b, k, e), 2)
    ensures var m' := if m % 2 != 0 then Or(m / 2, 1) else m / 2;
      m' == Jam(m, 1) && Faithful(m', v, Unit(b, k, e + 1))
  {
    Pow2At8();
    OrOne(m / 2);
    assert Shr(m, 1) == m / 2;
    JamKeepsSide(m, v, Unit(b, k, e), 2, 1);
    UnitStep(b, k, e, 1);
  }

  /** Shifts a short mantissa left, but not below the smallest exponent. */
  method Widen(exp: int, mant: u64, ghost v: nat, ghost b: nat, ghost k: nat) returns (e: int, m: u64)
    requires b > 0 && exp + k >= 0 && k >= 1022
    requires 0 < mant < 0x100_0000_0000_0000 && Faithful(mant, v, Unit(b, k, exp))
    ensures e + k >= 0 && 0 < m < 0x100_0000_0000_0000 && SameSide(m, v, Unit(b, k, e), 4)
    ensures m >= 0x80_0000_0000_0000 || e <= -1022
  {
    e, m := exp, mant;
    Coarser(m, v, Unit(b, k, e));
    while m < 0x80_0000_0000_0000 && e > -1022
      invariant e + k >= 0 && 0 < m < 0x100_0000_0000_0000
      invariant SameSide(m, v, Unit(b, k, e), 4)
      invariant m < 0x80_0000_0000_0000 ==> Faithful(m, v, Unit(b, k, e))
      decreases e + k
    {
      WidenStep(m, v, b, k, e);
      m := m * 2;
      e := e - 1;
    }
  }

  lemma WidenStep(m: nat, v: nat, b: nat, k: nat, e: int)
    requires b > 0 && e + k >= 1 && Faithful(m, v, Unit(b, k, e))
    ensures SameSide(2 * m, v, Unit(b, k, e - 1), 4)
    ensures 2 * m < 0x80_0000_0000_0000 ==> Faithful(2 * m, v, Unit(b, k, e - 1))
  {
    Pow2At8();
    UnitStep(b, k, e - 1, 1);
    var w := Unit(b, k, e - 1);
    DoubleSide(m, v, w);
    if 2 * m < 0x80_0000_0000_0000 {
      MulComm(w, 2);
      MulAssoc(m, 2, w);
      assert w > 0 by { MulMonotone(1, b, Pow2(e - 1 + k)); }
      ExactIsSameSide(2 * m, v, w, 2);
    }
  }

  /** The guard, round and sticky bits tell on which side of the halfway point the number lies. */
  lemma GuardBits(m: nat, v: nat, w: nat)
    requires SameSide(m, v, w, 4)
    ensures var f, u := m / 8, 8 * w;
      && f * u <= v < f * u + u
      && (m % 8 < 4 <==> 2 * v < f * u + f * u + u)
      && (m % 8 == 4 <==> 2 * v == f * u + f * u + u)
  {
    var q, f, u := m / 4, m / 8, 4 * w;
    var t := q - 2 * f;
    assert q == 2 * f + t && 0 <= t <= 1 && m % 8 == 4 * t + m % 4;
    MulDistrib(2 * f, t, u);
    MulAssoc(f, 2, u);
    assert t == 0 ==> t * u == 0;
    assert t == 1 ==> t * u == u;
  }

  lemma UnitScale(b: nat, k: nat, e: int)
    requires k >= 1022 && e >= -1022
    ensures Pow2(e + 1022) * (b * Pow2(k - 1019)) == 8 * Unit(b, k, e)
  {
    var p, q := Pow2(e + 1022), Pow2(k - 1019);
    Pow2Add(e + 1022, k - 1019);
    assert Pow2(e + k + 3) == 8 * Pow2(e + k) by {
      assert Pow2(e + k + 3) == 2 * Pow2(e + k + 2) && Pow2(e + k + 2) == 2 * Pow2(e + k + 1);
    }
    MulAssoc(p, q, b); MulComm(q, b);
    MulComm(8 * Pow2(e + k), b); MulAssoc(b, Pow2(e + k), 8); MulComm(Pow2(e + k), 8);
  }

  /** Where the number being packed lies among the codes of its binade. */
  lemma CodeBracket(f: nat, e: int, b: nat, k: nat, c: nat, d: nat, u: nat)
    requires -1022 <= e <= 1023 && k >= 1022
    requires f < 0x20_0000_0000_0000 && (f >= 0x10_0000_0000_0000 || e == -1022)
    requires c == (e + 1022) * 0x10_0000_0000_0000 + f && d == b * Pow2(k - 1019) && u == 8 * Unit(b, k, e)
    ensures c < INF && Mag(c) * d == f * u && Mag(c + 1) * d == f * u + u
    ensures (Mag(c) + Mag(c + 1)) * d == f * u + f * u + u
  {
    var p := Pow2(e + 1022);
    UnitScale(b, k, e);
    MagLinear(e + 1022, f);
    MagLinear(e + 1022, f + 1);
    MulAssoc(f, p, d);
    MulAssoc(f + 1, p, d);
    MulDistrib(f, 1, u);
    MulDistrib(Mag(c), Mag(c + 1), d);
  }

  predicate RoundUp(m: nat) {
    m % 8 > 4 || (m % 8 == 4 && m / 8 % 2 != 0)
  }

  lemma RoundedCode(m: nat, e: int, v: nat, b: nat, k: nat, c: nat, d: nat)
    requires -1022 <= e <= 1023 && k >= 1022 && b > 0
    requires m < 0x100_0000_0000_0000 && (m >= 0x80_0000_0000_0000 || e == -1022)
    requires SameSide(m, v, Unit(b, k, e), 4)
    requires c == (e + 1022) * 0x10_0000_0000_0000 + m / 8 && d == b * Pow2(k - 1019)
    ensures Rounds(if RoundUp(m) then c + 1 else c, v, d)
  {
    var w := Unit(b, k, e);
    GuardBits(m, v, w);
    CodeBracket(m / 8, e, b, k, c, d, 8 * w);
    assert d > 0 by { MulMonotone(1, b, Pow2(k - 1019)); }
    ModMultiple(m / 8, (e + 1022) * 0x8_0000_0000_0000, 2);
    RoundInBracket(c, m, v, d, 8 * w);
  }

  lemma RoundInBracket(c: nat, m: nat, v: nat, d: nat, u: nat)
    requires d > 0 && c < INF && c % 2 == m / 8 % 2
    requires var f := m / 8;
      && f * u <= v < f * u + u
      && (m % 8 < 4 <==> 2 * v < f * u + f * u + u)
      && (m % 8 == 4 <==> 2 * v == f * u + f * u + u)
      && Mag(c) * d == f * u && Mag(c + 1) * d == f * u + u
      && (Mag(c) + Mag(c + 1)) * d == f * u + f * u + u
    ensures Rounds(if RoundUp(m) then c + 1 else c, v, d)
  {
    Bracket(c, RoundUp(m), v, d);
  }

  lemma TooLarge(m: nat, e: int, v: nat, b: nat, k: nat)
    requires e > 1023 && k >= 1022 && m >= 0x80_0000_0000_0000
    requires SameSide(m, v, Unit(b, k, e), 4)
    ensures Rounds(INF, v, b * Pow2(k - 1019))
  {
    var d, u := b * Pow2(k - 1019), 4 * Unit(b, k, e);
    UnitScale(b, k, e);
    assert Pow2(e + 1022) == 2 * Pow2(e + 1021);
    MulAssoc(2, Pow2(e + 1021), d);
    assert u == Pow2(e + 1021) * d;
    Pow2Monotone(TOP, e + 1021);
    MulMonotone(Pow2(TOP), Pow2(e + 1021), d);
    MulMonotone(0x20_0000_0000_0000, m / 4, u);
    FarAbove(v, d, u);
  }

  lemma FarAbove(v: nat, d: nat, u: nat)
    requires u >= Pow2(TOP) * d && v >= 0x20_0000_0000_0000 * u
    ensures Overflows(v, d)
  {
    var p := Pow2(TOP);
    MulAssoc(0x20_0000_0000_0000, p, d);
    MulMonotone(OverflowPoint(), 0x20_0000_0000_0000 * p, d);
  }

  lemma ZeroRounds(v: nat, w: nat, d: nat)
    requires d > 0 && Faithful(0, v, w)
    ensures v == 0 && Rounds(0, v, d)
  {
    ExactRounds(0, 0, d);
  }

  /** Rounds a faithful mantissa into an encoding, through the subnormal range and overflow. */
  method Pack(sign: nat, exp: int, mant: u64, ghost v: nat, ghost b: nat, ghost k: nat) returns (r: u64)
    requires sign <= 1 && b > 0 && exp + k >= 0 && k >= 1022
    requires Faithful(mant, v, Unit(b, k, exp))
    ensures Sign(r) == sign && Rounds(Code(r), v, b * Pow2(k - 1019))
  {
    MulMonotone(1, b, Pow2(k - 1019));
    if mant == 0 {
      ZeroRounds(v, Unit(b, k, exp), b * Pow2(k - 1019));
      return sign * 0x8000_0000_0000_0000;
    }
    var e, m := Narrow(exp, mant, v, b, k);
    e, m := Widen(e, m, v, b, k);
    if e > 1023 {
      TooLarge(m, e, v, b, k);
      return Assemble(sign, 2047, 0);
    }
    if e < -1022 {
      SinkToSubnormal(m, e, v, b, k);
      m := ShiftRightJam(m, -1022 - e);
      e := -1022;
    }
    RoundedCode(m, e, v, b, k, (e + 1022) * 0x10_0000_0000_0000 + m / 8, b * Pow2(k - 1019));
    r := RoundAndAssemble(sign, e, m);
  }

  lemma SinkToSubnormal(m: u64, e: int, v: nat, b: nat, k: nat)
    requires e < -1022 && e + k >= 0 && m < 0x100_0000_0000_0000 && SameSide(m, v, Unit(b, k, e), 4)
    ensures var m' := ShiftRightJam(m, -1022 - e);
      m' < 0x100_0000_0000_0000 && SameSide(m', v, Unit(b, k, -1022), 4)
  {
    JamKeepsSide(m, v, Unit(b, k, e), 4, -1022 - e);
    UnitStep(b, k, e, -1022 - e);
  }

  method RoundAndAssemble(sign: nat, exp: int, mant: u64) returns (r: u64)
    requires sign <= 1 && -1022 <= exp <= 1023
    requires mant < 0x100_0000_0000_0000 && (mant >= 0x80_0000_0000_0000 || exp == -1022)
    ensures Sign(r) == sign
    ensures var c := (exp + 1022) * 0x10_0000_0000_0000 + mant / 8;
      Code(r) == if RoundUp(mant) then c + 1 else c
  {
    var rem, frac: nat := mant % 8, mant / 8;
    if rem > 4 || (rem == 4 && frac % 2 != 0) { frac := frac + 1; }
    r := AssembleRounded(sign, exp, frac);
  }

  method AssembleRounded(sign: nat, exp: int, rounded: nat) returns (r: u64)
    requires sign <= 1 && -1022 <= exp <= 1023
    requires rounded <= 0x20_0000_0000_0000 && (rounded >= 0x10_0000_0000_0000 || exp == -1022)
    ensures Sign(r) == sign && Code(r) == (exp + 1022) * 0x10_0000_0000_0000 + rounded
  {
    var e, frac := exp, rounded;
    if frac >= 0x20_0000_0000_0000 {
      frac := frac / 2;
      e := e + 1;
      if e > 1023 { return Assemble(sign, 2047, 0); }
    }
    var expbits := if e == -1022 && frac < 0x10_0000_0000_0000 then 0 else e + 1023;
    assert frac % 0x10_0000_0000_0000 == if frac < 0x10_0000_0000_0000 then frac else frac - 0x10_0000_0000_0000;
    r := Assemble(sign, expbits, frac % 0x10_0000_0000_0000);
  }
}
