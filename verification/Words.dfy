/** Fixed-width unsigned words as natural numbers.

    A C `unsigned` or `unsigned long long` is a natural number below a power of two.
    The bitwise operators are defined bit by bit, so that every use of `&`, `|` and `^`
    in the modelled sources keeps its own meaning; the lemmas say when they coincide
    with sums, remainders and quotients. */
module Words {


  type u32 = x: nat | x < 0x1_0000_0000
  type u64 = x: nat | x < 0x1_0000_0000_0000_0000

  function Pow2(n: nat): (p: nat)
    ensures p >= 1
  {
    if n == 0 then 1 else 2 * Pow2(n - 1)
  }

  lemma {:induction false} Pow2Add(a: nat, b: nat)
    ensures Pow2(a + b) == Pow2(a) * Pow2(b)
  {
    if a == 0 {
    } else {
      Pow2Add(a - 1, b);
      assert Pow2(a + b) == 2 * (Pow2(a - 1) * Pow2(b));
        MulAssoc(2, Pow2(a - 1), Pow2(b));
    }
  }

  lemma {:induction false} Pow2Monotone(a: nat, b: nat)
    requires a <= b
    ensures Pow2(a) <= Pow2(b)
    ensures a < b ==> 2 * Pow2(a) <= Pow2(b)
    decreases b
  {
    if a < b {
      Pow2Monotone(a, b - 1);
    }
  }

  lemma Pow2At8() ensures Pow2(1) == 2 && Pow2(8) == 0x100 {}

  lemma Pow2At16()
    ensures Pow2(16) == 0x1_0000
  {
    Pow2At8();
    Pow2Add(8, 8);
  }

  lemma Pow2At32()
    ensures Pow2(32) == 0x1_0000_0000
  {
    Pow2At16();
    Pow2Add(16, 16);
  }

  lemma Pow2At64()
    ensures Pow2(64) == 0x1_0000_0000_0000_0000
  {
    Pow2At32();
    Pow2Add(32, 32);
  }

  // ---- products, one algebraic step at a time ----

  lemma MulAssoc(a: int, b: int, c: int)
    ensures (a * b) * c == a * (b * c)
  {}

  /** The product of natural numbers is one. */
  function Times(a: nat, b: nat): nat {
    MulMonotone(0, a, b);
    a * b
  }

  lemma MulComm(a: int, b: int)
    ensures a * b == b * a
  {}

  lemma MulDistrib(a: int, b: int, c: int)
    ensures (a + b) * c == a * c + b * c && c * (a + b) == c * a + c * b
    ensures (a - b) * c == a * c - b * c
  {}

  lemma MulMonotone(a: int, b: int, c: int)
    requires a <= b && c >= 0
    ensures a * c <= b * c
    ensures a < b && c > 0 ==> a * c + c <= b * c
  {
    if a < b && c > 0 { MulDistrib(b - a - 1, a + 1, c); MulDistrib(a, 1, c); }
  }

  lemma MulBound(x: int, y: int, a: int, b: int)
    requires 0 <= x <= a && 0 <= y <= b
    ensures 0 <= x * y <= a * b
  {
    MulMonotone(x, a, y);
    MulMonotone(y, b, a);
  }

  /** A quotient is below m when the dividend is below m times the divisor. */
  lemma QuotientBelow(x: nat, d: nat, m: nat)
    requires d > 0 && x < m * d
    ensures x / d < m
  {
    if x / d >= m { MulMonotone(m, x / d, d); assert false; }
  }

  // ---- division facts, each in the shape the word proofs use ----

  lemma DivModSplit(x: int, m: int)
    requires m > 0
    ensures x == x / m * m + x % m
  {}

  lemma DivLe(x: nat, m: nat)
    requires m > 0
    ensures 0 <= x / m <= x
  {
    var q := x / m;
    DivModSplit(x, m);
    MulMonotone(1, m, q);
    MulComm(m, q);
  }

  lemma DivModUnique(x: int, q: int, r: int, m: int)
    requires 0 <= r < m && x == q * m + r
    ensures x / m == q && x % m == r
  {
    var dq := q - x / m;
    assert x == m * (x / m) + x % m;
    assert q * m == m * (x / m) + m * dq;
    assert dq >= 1 ==> m * dq >= m;
    assert dq <= -1 ==> m * dq <= -m;
  }

  lemma DivDiv(x: nat, a: nat, b: nat)
    requires a > 0 && b > 0
    ensures a * b > 0 && x / (a * b) == (x / a) / b
    ensures x % (a * b) == a * ((x / a) % b) + x % a
  {
    assert a * b > 0;
    var q, r := x / a, x % a;
    var q2, r2 := q / b, q % b;
    assert x == a * q + r && q == b * q2 + r2;
    MulDistrib(b * q2, r2, a);
    MulAssoc(a, b, q2);
    MulComm(a * b, q2);
    MulMonotone(r2, b, a);
    MulComm(r2, a); MulComm(a, b);
    DivModUnique(x, q2, a * r2 + r, a * b);
  }

  lemma ModMultiple(x: int, k: int, m: int)
    requires m > 0
    ensures (x + k * m) % m == x % m && (x + k * m) / m == x / m + k
  {
    assert x == m * (x / m) + x % m;
    assert (x / m + k) * m == m * (x / m) + k * m;
    DivModUnique(x + k * m, x / m + k, x % m, m);
  }

  // ---- bitwise operators ----

  function And(a: nat, b: nat): (r: nat)
    ensures r <= a && r <= b
  {
    if a == 0 || b == 0 then 0
    else 2 * And(a / 2, b / 2) + (if a % 2 == 1 && b % 2 == 1 then 1 else 0)
  }

  function Or(a: nat, b: nat): (r: nat)
    ensures r >= a && r >= b
  {
    if a == 0 then b else if b == 0 then a
    else 2 * Or(a / 2, b / 2) + (if a % 2 == 1 || b % 2 == 1 then 1 else 0)
  }

  function Xor(a: nat, b: nat): (r: nat)
    ensures r <= a + b
  {
    if a == 0 then b else if b == 0 then a
    else 2 * Xor(a / 2, b / 2) + (if a % 2 != b % 2 then 1 else 0)
  }

  /** `|` of a multiple of 2^k with a number below 2^k is their sum. */
  lemma {:induction false} OrDisjoint(a: nat, b: nat, k: nat)
    requires a % Pow2(k) == 0 && b < Pow2(k)
    ensures Or(a, b) == a + b
    decreases k
  {
    if k == 0 || a == 0 || b == 0 {
    } else {
      DivDiv(a, 2, Pow2(k - 1));
      assert Pow2(k) == 2 * Pow2(k - 1);
      assert a % 2 == 0 && (a / 2) % Pow2(k - 1) == 0;
      OrDisjoint(a / 2, b / 2, k - 1);
    }
  }

  /** `&` with 2^k - 1 is the remainder modulo 2^k. */
  lemma {:induction false} AndMask(a: nat, k: nat)
    ensures And(a, Pow2(k) - 1) == a % Pow2(k)
    decreases k
  {
    if a == 0 {
      DivModUnique(0, 0, 0, Pow2(k));
    } else if k == 0 {
      assert Pow2(k) == 1;
    } else {
      assert Pow2(k) == 2 * Pow2(k - 1);
      assert (Pow2(k) - 1) / 2 == Pow2(k - 1) - 1;
      AndMask(a / 2, k - 1);
      DivDiv(a, 2, Pow2(k - 1));
    }
  }

  lemma {:induction false} OrBelow(a: nat, b: nat, k: nat)
    requires a < Pow2(k) && b < Pow2(k)
    ensures Or(a, b) < Pow2(k)
    decreases k
  {
    if a == 0 || b == 0 {
    } else {
      OrBelow(a / 2, b / 2, k - 1);
    }
  }

  lemma OrOne(a: nat)
    ensures Or(a, 1) == a + 1 - a % 2
  {
    assert Or(a / 2, 0) == a / 2;
  }

  lemma AndOne(a: nat)
    ensures And(a, 1) == a % 2
  {
    AndMask(a, 1);
    assert Pow2(1) == 2;
  }

  // ---- shifts, as C evaluates them on a word of `width` bits ----

  function Shl32(x: nat, n: nat): u32 {
    x * Pow2(n) % 0x1_0000_0000
  }

  function Shl64(x: nat, n: nat): u64 {
    x * Pow2(n) % 0x1_0000_0000_0000_0000
  }

  function Shr(x: nat, n: nat): (r: nat)
    ensures r <= x
  {
    DivLe(x, Pow2(n));
    x / Pow2(n)
  }

  lemma MulModMul(x: nat, m: nat, p: nat)
    requires m > 0 && p > 0
    ensures m * p > 0 && (x * p) % (m * p) == (x % m) * p
  {
    var q, r := x / m, x % m;
    assert m * p > 0;
    assert x * p == q * (m * p) + r * p by {
      assert x == m * q + r;
      assert (m * q) * p == q * (m * p);
    }
    assert r * p < m * p;
    DivModUnique(x * p, q, r * p, m * p);
  }

  /** A shift left by n keeps the low width - n bits. */
  lemma Shl32KeepsLow(x: nat, n: nat)
    requires n <= 32
    ensures Shl32(x, n) == (x % Pow2(32 - n)) * Pow2(n)
  {
    Pow2At32();
    Pow2Add(32 - n, n);
    MulModMul(x, Pow2(32 - n), Pow2(n));
  }

  lemma Shl64KeepsLow(x: nat, n: nat)
    requires n <= 64
    ensures Shl64(x, n) == (x % Pow2(64 - n)) * Pow2(n)
  {
    Pow2At64();
    Pow2Add(64 - n, n);
    MulModMul(x, Pow2(64 - n), Pow2(n));
  }

  lemma {:induction false} OrComm(a: nat, b: nat)
    ensures Or(a, b) == Or(b, a)
  {
    if a != 0 && b != 0 {
      OrComm(a / 2, b / 2);
    }
  }

  lemma MultipleOr(m: nat, low: nat, p: nat, k: nat)
    requires p == Pow2(k) && low < p
    ensures Or(m * p, low) == m * p + low
  {
    DivModUnique(m * p, m, 0, p);
    OrDisjoint(m * p, low, k);
  }

  lemma SwapInner(a: int, b: int, c: int, d: int)
    ensures (a * b) * (c * d) == a * c * (b * d)
  {
    MulAssoc(a, b, c * d);
    MulAssoc(b, c, d); MulComm(b, c); MulAssoc(c, b, d);
    MulAssoc(a, c, b * d);
  }
}
