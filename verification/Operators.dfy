/** What the operators of 32-bit expressions compute, in terms of single bits, remainders modulo 2^32 and
    equations between integers only. */
module Operators {
  import opened Words
  import opened Bits
  import opened Int64
  import opened Machine
  import opened Codegen
  import opened CodegenProof

  predicate Congruent(x: int, y: int) { (x - y) % 0x1_0000_0000 == 0 }

  /** The signed number a word stands for. */
  predicate Reads(x: u32, s: int) { -0x8000_0000 <= s < 0x8000_0000 && Congruent(x, s) }

  /** q and m are quotient and remainder of s by t in C: rounded toward zero, the remainder signed as s. */
  predicate Divides(s: int, t: int, q: int, m: int) {
    s == q * t + m && (if t < 0 then t < m < -t else -t < m < t) && (m == 0 || (m < 0) == (s < 0))
  }

  ghost predicate Bitwise(op: BinOp, a: u32, b: u32, v: u32) {
    forall j: nat :: TestBit(v, j) <==>
      match op
      case BitAnd => TestBit(a, j) && TestBit(b, j)
      case BitOr => TestBit(a, j) || TestBit(b, j)
      case BitXor => TestBit(a, j) != TestBit(b, j)
      case Shl => b % 32 <= j < 32 && TestBit(a, j - b % 32)
      case Shr(u) => if j + b % 32 < 32 then TestBit(a, j + b % 32) else j < 32 && !u && TestBit(a, 31)
      case _ => false
  }

  /** v is the result of a signed operator, for the numbers s and t that the operands stand for. */
  ghost predicate Signed(op: BinOp, s: int, t: int, v: u32) {
    match op
    case Div(_) => exists q, m :: Divides(s, t, q, m) && Congruent(v, q)
    case Mod(_) => exists q, m :: Divides(s, t, q, m) && Congruent(v, m)
    case Lt(_) => v == if s < t then 1 else 0
    case Le(_) => v == if s <= t then 1 else 0
    case _ => false
  }

  /** v is the result of the operator. */
  ghost predicate Means(op: BinOp, a: u32, b: u32, v: u32) {
    match op
    case Add => Congruent(v, a + b)
    case Sub => Congruent(v, a - b)
    case Mul => Congruent(v, a * b)
    case Eq => v == if a == b then 1 else 0
    case Ne => v == if a != b then 1 else 0
    case Div(true) => exists m :: Divides(a, b, v, m)
    case Mod(true) => exists q :: Divides(a, b, q, v)
    case Lt(true) => v == if a < b then 1 else 0
    case Le(true) => v == if a <= b then 1 else 0
    case Div(false) => forall s, t :: Reads(a, s) && Reads(b, t) ==> Signed(op, s, t, v)
    case Mod(false) => forall s, t :: Reads(a, s) && Reads(b, t) ==> Signed(op, s, t, v)
    case Lt(false) => forall s, t :: Reads(a, s) && Reads(b, t) ==> Signed(op, s, t, v)
    case Le(false) => forall s, t :: Reads(a, s) && Reads(b, t) ==> Signed(op, s, t, v)
    case _ => Bitwise(op, a, b, v)
  }

  /** An operator has a result except for division by zero, and it is the one of C. */
  lemma OperatorMeans(op: BinOp, a: u32, b: u32)
    ensures EvalBin(op, a, b).None? <==> (op.Div? || op.Mod?) && b == 0
    ensures EvalBin(op, a, b).Some? ==> Means(op, a, b, EvalBin(op, a, b).value)
  {
    ReadsOne(a);
    ReadsOne(b);
    match op
    case Add => SumMeans(a, b);
    case Sub => SumMeans(a, b);
    case Mul => ProductMeans(a, b);
    case Div(u) => if b != 0 { if u { UnsignedMeans(a, b); } else { QuotientMeans(op, a, b); } }
    case Mod(u) => if b != 0 { if u { UnsignedMeans(a, b); } else { QuotientMeans(op, a, b); } }
    case BitAnd => BitsMean(op, a, b);
    case BitOr => BitsMean(op, a, b);
    case BitXor => BitsMean(op, a, b);
    case Shl => BitsMean(op, a, b);
    case Shr(_) => BitsMean(op, a, b);
    case _ =>
  }

  lemma ReadsOne(x: u32)
    ensures Reads(x, AsInt(x)) && forall s :: Reads(x, s) ==> s == AsInt(x)
  {
  }

  lemma WrapMeans(x: int)
    ensures Congruent(Wrap32(x), x)
  {
    ModMultiple(0, -(x / 0x1_0000_0000), 0x1_0000_0000);
  }

  lemma SumMeans(a: u32, b: u32)
    ensures Congruent(Wrap32(AsInt(a) + AsInt(b)), a + b) && Congruent(Wrap32(AsInt(a) - AsInt(b)), a - b)
  {
    SignedWraps(a, b);
    WrapMeans(a + b);
    WrapMeans(a - b);
  }

  lemma ProductMeans(a: u32, b: u32)
    ensures Congruent(Wrap32(AsInt(a) * AsInt(b)), a * b)
  {
    MulWraps(a, b);
    WrapMeans(a * b);
  }

  lemma UnsignedMeans(a: u32, b: u32)
    requires b != 0
    ensures Means(Div(true), a, b, Wrap32(a / b)) && Means(Mod(true), a, b, Wrap32(a % b))
  {
    DivModSplit(a, b);
    DivLe(a, b);
    assert Divides(a, b, a / b, a % b);
  }

  lemma TruncMeans(s: int, t: int)
    requires t != 0
    ensures Divides(s, t, TruncDiv(s, t), TruncMod(s, t))
  {
    var x, y := if s < 0 then -s else s, if t < 0 then -t else t;
    var q, m := x / y, x % y;
    assert x == q * y + m;
    assert TruncDiv(s, t) == if (s < 0) == (t < 0) then q else -q;
    assert TruncDiv(s, t) * t == if s < 0 then -(q * y) else q * y;
  }

  lemma QuotientMeans(op: BinOp, a: u32, b: u32)
    requires b != 0 && (op == Div(false) || op == Mod(false))
    ensures Means(op, a, b, EvalBin(op, a, b).value)
  {
    ReadsOne(a);
    ReadsOne(b);
    var s, t := AsInt(a), AsInt(b);
    TruncMeans(s, t);
    WrapMeans(TruncDiv(s, t));
    WrapMeans(TruncMod(s, t));
    assert Signed(op, s, t, EvalBin(op, a, b).value);
  }

  // ---- bits ----

  lemma BitsMean(op: BinOp, a: u32, b: u32)
    requires op.BitAnd? || op.BitOr? || op.BitXor? || op.Shl? || op.Shr?
    ensures Bitwise(op, a, b, EvalBin(op, a, b).value)
  {
    WordBits(a, b);
    match op
    case Shl => forall j: nat { LeftBit(a, b % 32, j); }
    case Shr(u) => if u { LogicalMeans(a, b); } else { forall j: nat { SignedRightBit(a, b % 32, j); } }
    case BitAnd => forall j: nat { AndBit(a, b, j); }
    case BitOr => forall j: nat { OrBit(a, b, j); }
    case BitXor => forall j: nat { XorBit(a, b, j); }
  }

  lemma LogicalMeans(a: u32, b: u32)
    ensures Bitwise(Shr(true), a, b, Words.Shr(a, b % 32))
  {
    forall j: nat
      ensures TestBit(Words.Shr(a, b % 32), j) <==> j + b % 32 < 32 && TestBit(a, j + b % 32)
    {
      RightBit(a, b % 32, j);
      if j + b % 32 >= 32 { HighBit(a, j + b % 32); }
    }
  }

  /** The bitwise operators stay within a word. */
  lemma WordBits(a: u32, b: u32)
    ensures Wrap32(Or(a, b)) == Or(a, b) && Wrap32(Xor(a, b)) == Xor(a, b)
  {
    Pow2At32();
    OrBelow(a, b, 32);
    XorBelow(a, b, 32);
  }

  lemma {:induction false} XorBelow(a: nat, b: nat, k: nat)
    requires a < Pow2(k) && b < Pow2(k)
    ensures Xor(a, b) < Pow2(k)
    decreases k
  {
    if a == 0 || b == 0 {
    } else {
      XorBelow(a / 2, b / 2, k - 1);
    }
  }

  lemma HighBit(x: u32, j: nat)
    requires j >= 32
    ensures !TestBit(x, j)
  {
    Pow2At32();
    Pow2Monotone(32, j);
    BitCounts(x, j);
    DivModUnique(x, 0, x, Pow2(j));
  }

  lemma {:induction false} RightBit(x: nat, n: nat, j: nat)
    ensures TestBit(Words.Shr(x, n), j) <==> TestBit(x, j + n)
    decreases n
  {
    if n > 0 {
      DivDiv(x, 2, Pow2(n - 1));
      assert Pow2(n) == 2 * Pow2(n - 1);
      RightBit(x / 2, n - 1, j);
    }
  }

  lemma {:induction false} ScaledBit(x: nat, n: nat, j: nat)
    ensures TestBit(x * Pow2(n), j) <==> n <= j && TestBit(x, j - n)
    decreases n
  {
    if n > 0 {
      var y := x * Pow2(n - 1);
      MulComm(x, Pow2(n)); MulComm(x, Pow2(n - 1)); MulAssoc(2, Pow2(n - 1), x);
      assert x * Pow2(n) == 2 * y;
      if j > 0 { ScaledBit(x, n - 1, j - 1); }
    }
  }

  lemma LeftBit(x: u32, n: nat, j: nat)
    requires n < 32
    ensures TestBit(Shl32(x, n), j) <==> n <= j < 32 && TestBit(x, j - n)
  {
    if j >= 32 { HighBit(Shl32(x, n), j); } else {
      Pow2At32();
      LowBit(x * Pow2(n), 32, j);
      ScaledBit(x, n, j);
    }
  }

  lemma LowBit(x: nat, k: nat, j: nat)
    requires j < k
    ensures TestBit(x % Pow2(k), j) <==> TestBit(x, j)
  {
    AndMask(x, k);
    AndBit(x, Pow2(k) - 1, j);
    OnesBit(k, j);
  }

  /** An arithmetic shift is a logical one of the sign-extended word. */
  lemma SignedRightBit(x: u32, n: nat, j: nat)
    requires n < 32
    ensures TestBit(Wrap32(AsInt(x) / Pow2(n)), j) <==>
      if j + n < 32 then TestBit(x, j + n) else j < 32 && TestBit(x, 31)
  {
    var w := Wrap32(AsInt(x) / Pow2(n));
    if j >= 32 { HighBit(w, j); } else {
      Extended(x, n, j);
      RightBit(Wide(x), n, j);
      WideBit(x, j + n);
    }
  }

  /** A word extended with its sign to 64 bits. */
  function Wide(x: u32): nat { if x < 0x8000_0000 then x else x + 0xffff_ffff_0000_0000 }

  lemma Extended(x: u32, n: nat, j: nat)
    requires n < 32 && j < 32
    ensures TestBit(Wrap32(AsInt(x) / Pow2(n)), j) <==> TestBit(Words.Shr(Wide(x), n), j)
  {
    Pow2At32();
    Pow2Add(n, 32 - n);
    var s, w := AsInt(x) / Pow2(n), Words.Shr(Wide(x), n);
    assert w % 0x1_0000_0000 == Wrap32(s) by {
      Carried(AsInt(x), Wide(x), if x < 0x8000_0000 then 0 else 1, Pow2(n), Pow2(32 - n));
    }
    LowBit(w, 32, j);
  }

  /** A multiple of 2^64 does not show in the low word of a quotient by p. */
  lemma Carried(s: int, w: int, k: int, p: nat, q: nat)
    requires p > 0 && p * q == 0x1_0000_0000 && w == s + k * 0x1_0000_0000 * 0x1_0000_0000
    ensures (w / p) % 0x1_0000_0000 == (s / p) % 0x1_0000_0000
  {
    var m := k * 0x1_0000_0000;
    MulComm(p, q);
    MulAssoc(m, q, p);
    ModMultiple(s, m * q, p);
    MulComm(m, q);
    MulAssoc(q, k, 0x1_0000_0000);
    ModMultiple(s / p, q * k, 0x1_0000_0000);
  }

  lemma WideBit(x: u32, j: nat)
    requires j < 64
    ensures TestBit(Wide(x), j) <==> if j < 32 then TestBit(x, j) else TestBit(x, 31)
  {
    Pow2At32();
    if j < 32 {
      LowBit(Wide(x), 32, j);
    } else {
      TopBit(x);
      var y := Wide(x) / 0x1_0000_0000;
      RightBit(Wide(x), 32, j - 32);
      if x < 0x8000_0000 { ZeroBits(j - 32); } else { OnesBit(32, j - 32); }
    }
  }

  lemma TopBit(x: u32)
    ensures TestBit(x, 31) <==> x >= 0x8000_0000
  {
    Pow2At32();
    assert Pow2(32) == 2 * Pow2(31);
    BitCounts(x, 31);
  }
}
