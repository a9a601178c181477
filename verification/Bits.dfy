/** Single bits of a natural number, under the bitwise operators. */
module Bits {
  import opened Words

  predicate TestBit(x: nat, j: nat) {
    if j == 0 then x % 2 == 1 else TestBit(x / 2, j - 1)
  }

  /** `&` with a single bit tests it. */
  lemma {:induction false} AndTestsBit(x: nat, j: nat)
    ensures And(x, Pow2(j)) != 0 <==> TestBit(x, j)
    decreases j
  {
    if j > 0 {
      assert Pow2(j) == 2 * Pow2(j - 1);
      AndTestsBit(x / 2, j - 1);
      if x == 0 { ZeroBits(j - 1); }
    }
  }

  lemma {:induction false} ZeroBits(j: nat)
    ensures !TestBit(0, j)
  {
    if j > 0 { ZeroBits(j - 1); }
  }

  lemma {:induction false} OrBit(x: nat, y: nat, j: nat)
    ensures TestBit(Or(x, y), j) <==> TestBit(x, j) || TestBit(y, j)
    decreases j
  {
    if x == 0 || y == 0 {
      ZeroBits(j);
    } else {
      assert Or(x, y) / 2 == Or(x / 2, y / 2);
      if j > 0 { OrBit(x / 2, y / 2, j - 1); }
    }
  }

  lemma {:induction false} AndBit(x: nat, y: nat, j: nat)
    ensures TestBit(And(x, y), j) <==> TestBit(x, j) && TestBit(y, j)
    decreases j
  {
    if x == 0 || y == 0 {
      ZeroBits(j);
    } else {
      assert And(x, y) / 2 == And(x / 2, y / 2);
      if j > 0 { AndBit(x / 2, y / 2, j - 1); }
    }
  }

  lemma {:induction false} XorBit(x: nat, y: nat, j: nat)
    ensures TestBit(Xor(x, y), j) <==> TestBit(x, j) != TestBit(y, j)
    decreases j
  {
    if x == 0 || y == 0 {
      ZeroBits(j);
    } else {
      assert Xor(x, y) / 2 == Xor(x / 2, y / 2);
      if j > 0 { XorBit(x / 2, y / 2, j - 1); }
    }
  }

  /** Bit j counts 2^j. */
  lemma {:induction false} BitCounts(x: nat, j: nat)
    ensures TestBit(x, j) <==> x / Pow2(j) % 2 == 1
    decreases j
  {
    if j > 0 {
      BitCounts(x / 2, j - 1);
      DivDiv(x, 2, Pow2(j - 1));
      assert Pow2(j) == 2 * Pow2(j - 1);
    }
  }

  lemma {:induction false} PowerBit(k: nat, j: nat)
    ensures TestBit(Pow2(k), j) <==> j == k
    decreases j
  {
    if k == 0 {
      if j > 0 { ZeroBits(j - 1); }
    } else {
      assert Pow2(k) == 2 * Pow2(k - 1);
      if j > 0 { PowerBit(k - 1, j - 1); }
    }
  }

  /** The complement of a single bit within n bits. */
  lemma {:induction false} ComplementBit(n: nat, k: nat, j: nat)
    requires k < n && j < n
    ensures Pow2(n) - 1 - Pow2(k) >= 0
    ensures TestBit(Pow2(n) - 1 - Pow2(k), j) <==> j != k
    decreases n
  {
    Pow2Monotone(k, n);
    assert Pow2(n) == 2 * Pow2(n - 1);
    if k == 0 {
      assert (Pow2(n) - 2) / 2 == Pow2(n - 1) - 1;
      if j > 0 { OnesBit(n - 1, j - 1); }
    } else {
      assert Pow2(k) == 2 * Pow2(k - 1);
      Pow2Monotone(k - 1, n - 1);
      assert (Pow2(n) - 1 - Pow2(k)) / 2 == Pow2(n - 1) - 1 - Pow2(k - 1);
      if j > 0 { ComplementBit(n - 1, k - 1, j - 1); }
    }
  }

  lemma {:induction false} OnesBit(n: nat, j: nat)
    requires j < n
    ensures TestBit(Pow2(n) - 1, j)
    decreases n
  {
    assert Pow2(n) == 2 * Pow2(n - 1);
    assert (Pow2(n) - 1) / 2 == Pow2(n - 1) - 1;
    if j > 0 { OnesBit(n - 1, j - 1); }
  }
}
