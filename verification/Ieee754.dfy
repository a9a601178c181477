/** Binary64 numbers and rounding to nearest, ties to even, without reference to any algorithm.

    A finite magnitude is coded by the low 63 bits of its encoding: biased exponent, then fraction.
    Codes are numbered in the order of the magnitudes they stand for, and infinity is the next
    code after the largest finite one. Magnitudes are counted in units of 2^-1074, the smallest
    subnormal, so that every magnitude is a natural number. */
module Ieee754 {
  import opened Words

  const INF: nat := 0x7ff0_0000_0000_0000
  const TOP: nat := 2045 // the exponent field of the largest finite magnitudes, less one

  /** The magnitude of a code; for INF, where the next finite magnitude would be. */
  function Mag(c: nat): nat {
    var e, f := c / 0x10_0000_0000_0000, c % 0x10_0000_0000_0000;
    if e == 0 then f else (0x10_0000_0000_0000 + f) * Pow2(e - 1)
  }

  /** How far the magnitude of a code is from n / d, multiplied by d. */
  function Distance(c: nat, n: nat, d: nat): nat {
    if Mag(c) * d >= n then Mag(c) * d - n else n - Mag(c) * d
  }

  ghost predicate IsNearest(c: nat, n: nat, d: nat) {
    && c < INF
    && forall other: nat :: other < INF ==>
         && Distance(c, n, d) <= Distance(other, n, d)
         && (Distance(other, n, d) == Distance(c, n, d) && other != c ==> c % 2 == 0)
  }

  /** 2^1024 - 2^970, from where rounding gives infinity. */
  function OverflowPoint(): nat { 0x3f_ffff_ffff_ffff * Pow2(TOP - 1) }

  ghost predicate Overflows(n: nat, d: nat) {
    n >= OverflowPoint() * d
  }

  /** c is n / d rounded to nearest, ties to even (section 4.3.1 of IEEE 754-2019). */
  ghost predicate Rounds(c: nat, n: nat, d: nat) {
    if Overflows(n, d) then c == INF else IsNearest(c, n, d)
  }

  // ---- order of the codes ----

  lemma MagOf(c: nat, e: nat, m: nat)
    requires 0x10_0000_0000_0000 <= m < 0x20_0000_0000_0000
    requires c == e * 0x10_0000_0000_0000 + m
    ensures Mag(c) == m * Pow2(e)
  {
    DivModUnique(c, e + 1, m - 0x10_0000_0000_0000, 0x10_0000_0000_0000);
  }

  /** Within one binade, and in the subnormal range below it, magnitudes are equally spaced. */
  lemma MagLinear(k: nat, m: nat)
    requires m <= 0x20_0000_0000_0000 && (k == 0 || m >= 0x10_0000_0000_0000)
    ensures Mag(k * 0x10_0000_0000_0000 + m) == m * Pow2(k)
  {
    var c := k * 0x10_0000_0000_0000 + m;
    if m < 0x10_0000_0000_0000 {
    } else if m < 0x20_0000_0000_0000 {
      MagOf(c, k, m);
    } else {
      MagOf(c, k + 1, 0x10_0000_0000_0000);
    }
  }

  lemma MagStep(c: nat)
    ensures Mag(c) < Mag(c + 1)
  {
    var e, f := c / 0x10_0000_0000_0000, c % 0x10_0000_0000_0000;
    var k, m := if e == 0 then 0 else e - 1, if e == 0 then f else 0x10_0000_0000_0000 + f;
    MagLinear(k, m);
    MagLinear(k, m + 1);
    MulDistrib(m, 1, Pow2(k));
  }

  lemma {:induction false} MagOrder(c: nat, c': nat)
    requires c < c'
    ensures Mag(c) < Mag(c')
    decreases c'
  {
    MagStep(c' - 1);
    if c < c' - 1 {
      MagOrder(c, c' - 1);
    }
  }

  lemma MagOrderIff(c: nat, c': nat)
    ensures Mag(c) < Mag(c') <==> c < c'
    ensures Mag(c) == Mag(c') <==> c == c'
  {
    if c < c' { MagOrder(c, c'); } else if c' < c { MagOrder(c', c); }
  }

  lemma MagTop()
    ensures Mag(INF - 1) == 0x1f_ffff_ffff_ffff * Pow2(TOP)
    ensures Mag(INF) == 0x20_0000_0000_0000 * Pow2(TOP)
  {
    MagLinear(TOP, 0x1f_ffff_ffff_ffff);
    MagLinear(TOP, 0x20_0000_0000_0000);
  }

  // ---- rounding is a function of the number being rounded ----

  lemma RoundsUnique(c: nat, c': nat, n: nat, d: nat)
    requires d > 0 && Rounds(c, n, d) && Rounds(c', n, d)
    ensures c == c'
  {
    if !Overflows(n, d) && c != c' {
      assert Distance(c, n, d) == Distance(c', n, d);
      assert c % 2 == 0 && c' % 2 == 0;
      if c < c' { BetweenTies(c, c', n, d); } else { BetweenTies(c', c, n, d); }
    }
  }

  /** Of two equally distant codes, any code strictly between them is closer. */
  lemma BetweenTies(c: nat, c': nat, n: nat, d: nat)
    requires d > 0 && c + 1 < c' && Distance(c, n, d) == Distance(c', n, d)
    ensures Distance(c + 1, n, d) < Distance(c, n, d)
  {
    MagOrder(c, c + 1);
    MagOrder(c + 1, c');
    MulMonotone(Mag(c), Mag(c + 1), d);
    MulMonotone(Mag(c + 1), Mag(c'), d);
  }

  /** A number between two adjacent magnitudes rounds to the closer one, or to the even one. */
  lemma Bracket(c: nat, up: bool, n: nat, d: nat)
    requires d > 0 && c < INF
    requires Mag(c) * d <= n < Mag(c + 1) * d
    requires 2 * n < (Mag(c) + Mag(c + 1)) * d ==> !up
    requires 2 * n > (Mag(c) + Mag(c + 1)) * d ==> up
    requires 2 * n == (Mag(c) + Mag(c + 1)) * d ==> up == (c % 2 == 1)
    ensures Rounds(if up then c + 1 else c, n, d)
  {
    BelowTop(c, n, d);
    UpAtTop(c, up, n, (Mag(c) + Mag(c + 1)) * d);
    if !(up && c + 1 == INF) {
      CloserInBracket(c, if up then c + 1 else c, n, d);
    }
  }

  /** Under the infinite code, which is even, rounding up is reaching the midpoint. */
  lemma UpAtTop(c: nat, up: bool, n: nat, mid: int)
    requires (2 * n < mid ==> !up) && (2 * n > mid ==> up) && (2 * n == mid ==> up == (c % 2 == 1))
    ensures c + 1 == INF ==> (up <==> 2 * n >= mid)
  {
  }

  lemma CloserInBracket(c: nat, r: nat, n: nat, d: nat)
    requires d > 0 && Mag(c) * d <= n < Mag(c + 1) * d && c <= r <= c + 1 && r < INF
    requires 2 * n < (Mag(c) + Mag(c + 1)) * d ==> r == c
    requires 2 * n > (Mag(c) + Mag(c + 1)) * d ==> r == c + 1
    requires 2 * n == (Mag(c) + Mag(c + 1)) * d ==> r % 2 == 0
    ensures IsNearest(r, n, d)
  {
    MulDistrib(Mag(c), Mag(c + 1), d);
    forall other: nat | other < INF
      ensures Distance(r, n, d) <= Distance(other, n, d)
      ensures Distance(other, n, d) == Distance(r, n, d) && other != r ==> r % 2 == 0
    {
      OutsideBracket(c, other, n, d);
    }
  }

  lemma OutsideBracket(c: nat, other: nat, n: nat, d: nat)
    requires d > 0 && Mag(c) * d <= n < Mag(c + 1) * d
    ensures other < c ==> Distance(other, n, d) > Distance(c, n, d)
    ensures other > c + 1 ==> Distance(other, n, d) > Distance(c + 1, n, d)
  {
    if other < c {
      MagOrder(other, c);
      MulMonotone(Mag(other), Mag(c), d);
    } else if other > c + 1 {
      MagOrder(c + 1, other);
      MulMonotone(Mag(c + 1), Mag(other), d);
    }
  }

  /** The overflow threshold is the midpoint above the largest finite magnitude. */
  lemma Threshold(n: nat, d: nat)
    ensures Overflows(n, d) <==> 2 * n >= (Mag(INF - 1) + Mag(INF)) * d
  {
    MagTop();
    assert Mag(INF - 1) + Mag(INF) == 2 * OverflowPoint();
    MulAssoc(2, OverflowPoint(), d);
  }

  lemma BelowTop(c: nat, n: nat, d: nat)
    requires d > 0 && c < INF && Mag(c) * d <= n < Mag(c + 1) * d
    ensures c + 1 < INF ==> !Overflows(n, d)
    ensures c + 1 == INF ==> (Overflows(n, d) <==> 2 * n >= (Mag(c) + Mag(c + 1)) * d)
  {
    Threshold(n, d);
    if c + 1 < INF {
      MagOrderIff(c + 1, INF - 1);
      MagOrder(INF - 1, INF);
      MulMonotone(Mag(c + 1), Mag(INF - 1), d);
      MulMonotone(Mag(c + 1), Mag(INF), d);
      MulDistrib(Mag(INF - 1), Mag(INF), d);
    }
  }

  /** A number representable exactly is its own rounding. */
  lemma ExactRounds(c: nat, n: nat, d: nat)
    requires d > 0 && c < INF && n == Mag(c) * d
    ensures Rounds(c, n, d)
  {
    MagStep(c);
    MulMonotone(Mag(c), Mag(c + 1), d);
    MulDistrib(Mag(c), Mag(c + 1), d);
    Bracket(c, false, n, d);
  }

  // ---- rounding depends only on the ratio ----

  lemma RoundsSameRatio(c: nat, n1: nat, d1: nat, n2: nat, d2: nat)
    requires d1 > 0 && d2 > 0 && n1 * d2 == n2 * d1 && Rounds(c, n1, d1)
    ensures Rounds(c, n2, d2)
  {
    OverflowSameRatio(n1, d1, n2, d2);
    if !Overflows(n1, d1) {
      forall other: nat | other < INF
        ensures Distance(c, n2, d2) <= Distance(other, n2, d2)
        ensures Distance(other, n2, d2) == Distance(c, n2, d2) && other != c ==> c % 2 == 0
      {
        DistanceSameRatio(c, n1, d1, n2, d2);
        DistanceSameRatio(other, n1, d1, n2, d2);
        CompareScaled(Distance(c, n1, d1), Distance(other, n1, d1), d2,
                      Distance(c, n2, d2), Distance(other, n2, d2), d1);
      }
    }
  }

  lemma DistanceSameRatio(c: nat, n1: nat, d1: nat, n2: nat, d2: nat)
    requires d1 > 0 && d2 > 0 && n1 * d2 == n2 * d1
    ensures Distance(c, n1, d1) * d2 == Distance(c, n2, d2) * d1
  {
    var m := Mag(c);
    MulDistrib(m * d1, n1, d2); MulDistrib(n1, m * d1, d2);
    MulDistrib(m * d2, n2, d1); MulDistrib(n2, m * d2, d1);
    MulAssoc(m, d1, d2); MulAssoc(m, d2, d1); MulComm(d1, d2);
    SameSign(m * d1 - n1, d2, m * d2 - n2, d1);
  }

  lemma SameSign(x: int, d: nat, y: int, e: nat)
    requires d > 0 && e > 0 && x * d == y * e
    ensures x >= 0 <==> y >= 0
  {
    if x >= 0 { MulMonotone(0, x, d); } else { MulMonotone(x, -1, d); }
    if y >= 0 { MulMonotone(0, y, e); } else { MulMonotone(y, -1, e); }
  }

  lemma CompareScaled(a1: nat, b1: nat, s1: nat, a2: nat, b2: nat, s2: nat)
    requires s1 > 0 && s2 > 0 && a1 * s1 == a2 * s2 && b1 * s1 == b2 * s2
    ensures a1 <= b1 <==> a2 <= b2
    ensures a1 == b1 <==> a2 == b2
  {
    MulDistrib(b1, a1, s1); MulDistrib(b2, a2, s2);
    SameSign(b1 - a1, s1, b2 - a2, s2);
    MulDistrib(a1, b1, s1); MulDistrib(a2, b2, s2);
    SameSign(a1 - b1, s1, a2 - b2, s2);
  }

  lemma OverflowSameRatio(n1: nat, d1: nat, n2: nat, d2: nat)
    requires d1 > 0 && d2 > 0 && n1 * d2 == n2 * d1
    ensures Overflows(n1, d1) <==> Overflows(n2, d2)
  {
    var t := OverflowPoint();
    MulAssoc(t, d1, d2); MulAssoc(t, d2, d1); MulComm(d1, d2);
    MulDistrib(n1, t * d1, d2); MulDistrib(n2, t * d2, d1);
    SameSign(n1 - t * d1, d2, n2 - t * d2, d1);
  }
}
