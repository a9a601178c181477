/** Page-table entry words: a frame number above twelve flag bits. */
module PageEntry {
  import opened Bits
  import opened Words
  import opened Paging

  const P := 1
  const W := 2
  const U := 4
  const COW := 512

  /** `~` of a 32-bit mask with one bit. */
  function Not(mask: nat): nat
    requires mask < 0x1_0000_0000
  {
    0xFFFF_FFFF - mask
  }

  // ---- bits of the pieces ----

  lemma Pow2At12() ensures Pow2(12) == 4096 && Pow2(9) == 512 && Pow2(2) == 4 {}

  lemma LowBits(x: nat)
    ensures And(x, 0xFFF) == x % 4096 < 4096
  {
    AndMask(x, 12);
    Pow2At12();
  }

  lemma LowBit(x: nat, j: nat)
    requires j < 12
    ensures TestBit(And(x, 0xFFF), j) <==> TestBit(x, j)
  {
    AndBit(x, 0xFFF, j);
    OnesBit(12, j);
    Pow2At12();
  }

  lemma ClearedBit(x: nat, k: nat, mask: nat, j: nat)
    requires k < 12 && j < 12 && mask == Pow2(k) && mask < 0x1_0000_0000
    ensures TestBit(And(x, Not(mask)), j) <==> TestBit(x, j) && j != k
  {
    AndBit(x, Not(mask), j);
    Pow2At32();
    ComplementBit(32, k, j);
  }

  lemma {:induction false} MultipleBit(x: nat, k: nat, j: nat)
    requires j < k
    ensures !TestBit(x * Pow2(k), j)
    decreases k
  {
    assert Pow2(k) == 2 * Pow2(k - 1);
    var y := x * Pow2(k - 1);
    MulComm(x, Pow2(k)); MulAssoc(2, Pow2(k - 1), x); MulComm(Pow2(k - 1), x);
    assert x * Pow2(k) == 2 * y;
    assert y >= 0 by { MulMonotone(0, x, Pow2(k - 1)); }
    if j > 0 { MultipleBit(x, k - 1, j - 1); }
  }

  /** A frame and flags side by side. */
  lemma Joined(f: nat, flags: nat)
    requires flags < 4096
    ensures Or(f * 4096, flags) == f * 4096 + flags && Or(f * 4096, flags) / 4096 == f
    ensures forall j :: 0 <= j < 12 ==> (TestBit(Or(f * 4096, flags), j) <==> TestBit(flags, j))
  {
    Pow2At12();
    ModMultiple(0, f, 4096);
    OrDisjoint(f * 4096, flags, 12);
    DivModUnique(f * 4096 + flags, f, flags, 4096);
    forall j | 0 <= j < 12 ensures TestBit(Or(f * 4096, flags), j) <==> TestBit(flags, j) {
      OrBit(f * 4096, flags, j);
      MultipleBit(f, 12, j);
    }
  }

  lemma AndEven(a: nat, mask: nat)
    requires mask % 2 == 0
    ensures And(a, mask) == 2 * And(a / 2, mask / 2)
  {
  }

  lemma {:induction false} HighBits(a: nat, k: nat, n: nat, mask: nat)
    requires k <= n && a < Pow2(n) && mask == Pow2(n) - Pow2(k)
    ensures And(a, mask) == a / Pow2(k) * Pow2(k)
    decreases k
  {
    if k == 0 {
      AndMask(a, n);
      DivModUnique(a, 0, a, Pow2(n));
    } else {
      var pn, pk := Pow2(n - 1), Pow2(k - 1);
      assert Pow2(n) == 2 * pn && Pow2(k) == 2 * pk;
      HighBits(a / 2, k - 1, n - 1, mask / 2);
      AndEven(a, mask);
      HighSplit(a, pk);
    }
  }

  lemma HighSplit(a: nat, p: nat)
    requires p > 0
    ensures 2 * ((a / 2) / p * p) == a / (2 * p) * (2 * p)
  {
    DivDiv(a, 2, p);
    MulComm(a / (2 * p), 2 * p);
    MulAssoc(2, p, a / (2 * p));
    MulComm(p, a / (2 * p));
  }

  // ---- the entries the kernel writes ----

  /** `pageBase`. */
  function Base(w: u32): nat { And(w, 0xFFFF_F000) }

  lemma BaseIs(w: u32)
    ensures Base(w) == w / 4096 * 4096
  {
    Pow2At32();
    Pow2At12();
    HighBits(w, 12, 32, 0xFFFF_F000);
  }

  /** `map` writes this. */
  function MapEntry(f: nat, flags: nat): nat { Or(Or(f * 4096, And(flags, 0xFFF)), P) }

  /** Flags of a shared page. */
  function CowFlags(w: u32): nat { And(Or(And(And(w, 0xFFF), Not(W)), COW), 0xFFF) }

  /** Fork writes this into the parent's table. */
  function SharedEntry(w: u32): nat { Or(Base(w), CowFlags(w)) }

  /** The flags a resolved fault leaves. */
  function OwnFlags(w: u32): nat { Or(And(And(w, 0xFFF), Not(COW)), W) }

  function OwnEntry(f: nat, w: u32): nat { Or(f * 4096, OwnFlags(w)) }

  lemma MapEntryIs(f: nat, flags: nat)
    requires f < 0x10_0000
    ensures MapEntry(f, flags) < 0x1_0000_0000 && FrameOf(MapEntry(f, flags)) == f
    ensures Writable(MapEntry(f, flags)) <==> Writable(flags)
    ensures UserPage(MapEntry(f, flags)) <==> UserPage(flags)
    ensures Cow(MapEntry(f, flags)) <==> Cow(flags)
  {
    var x := And(flags, 0xFFF);
    LowBits(flags);
    LowBit(flags, 1); LowBit(flags, 2); LowBit(flags, 9);
    Pow2At12();
    OrBelow(x, P, 12);
    var y := Or(x, P);
    OrAssocLow(f, x);
    Joined(f, y);
    assert Pow2(0) == P;
    PowerBit(0, 0); PowerBit(0, 1); PowerBit(0, 2); PowerBit(0, 9);
    OrBit(x, P, 0); OrBit(x, P, 1); OrBit(x, P, 2); OrBit(x, P, 9);
  }

  /** Directory entries permit everything. */
  lemma TableEntryIs(t: nat)
    requires t < 0x10_0000
    ensures Or(Or(Or(t * 4096, P), W), U) < 0x1_0000_0000 && FrameOf(Or(Or(Or(t * 4096, P), W), U)) == t
    ensures UserPage(Or(Or(Or(t * 4096, P), W), U))
  {
    Pow2At12();
    Joined(t, 1); Joined(t, 3); Joined(t, 7);
    assert Or(t * 4096, P) == t * 4096 + 1;
    FlagBeside(t, 1, 2); FlagBeside(t, 3, 4);
    BitsOfSeven();
  }

  lemma BitsOfSeven()
    ensures Or(1, 2) == 3 && Or(3, 4) == 7 && TestBit(7, 0) && TestBit(7, 2)
  {
  }

  lemma FlagBeside(t: nat, x: nat, y: nat)
    requires (x == 1 && y == 2) || (x == 3 && y == 4)
    ensures Or(t * 4096 + x, y) == t * 4096 + (x + y)
  {
    Pow2At12();
    if t == 0 { BitsOfSeven(); }
    else {
      BitsOfSeven();
      OrShift(t * 1024, x, y);
    }
  }

  /** `|` on the low two bits leaves the rest. */
  lemma OrShift(h: nat, x: nat, y: nat)
    requires h % 1024 == 0 && ((x == 1 && y == 2) || (x == 3 && y == 4))
    ensures Or(4 * h + x, y) == 4 * h + x + y
  {
    var a := 4 * h + x;
    assert a / 2 == 2 * h + x / 2 && (a / 2) / 2 == h;
    if y == 2 {
      assert Or(a / 2, 1) == a / 2 + 1 by { OrOne(a / 2); }
    } else {
      assert Or(h, 1) == h + 1 by { OrOne(h); }
      assert Or(a / 2, 2) == 2 * Or(h, 1) + 1;
    }
  }

  /** Setting the lowest bit beside a frame or within the flags is the same. */
  lemma OrAssocLow(f: nat, x: nat)
    requires x < 4096
    ensures Or(Or(f * 4096, x), P) == Or(f * 4096, Or(x, P))
  {
    Joined(f, x);
    Pow2At12();
    OrBelow(x, P, 12);
    Joined(f, Or(x, P));
    OrOne(x);
    OrOne(f * 4096 + x);
  }

  /** Shared: same frame, read only, marked for copying. */
  lemma SharedEntryIs(w: u32)
    requires Present(w)
    ensures SharedEntry(w) < 0x1_0000_0000 && FrameOf(SharedEntry(w)) == FrameOf(w)
    ensures !Writable(SharedEntry(w)) && Cow(SharedEntry(w)) && (UserPage(SharedEntry(w)) <==> UserPage(w))
    ensures !Writable(CowFlags(w)) && Cow(CowFlags(w)) && (UserPage(CowFlags(w)) <==> UserPage(w))
  {
    BaseIs(w);
    var x := And(And(w, 0xFFF), Not(W));
    var y := Or(x, COW);
    var z := And(y, 0xFFF);
    LowBits(y);
    Joined(w / 4096, z);
    Pow2At12();
    assert Pow2(1) == W;
    SharedBit(w, x, y, z, 0); SharedBit(w, x, y, z, 1); SharedBit(w, x, y, z, 2); SharedBit(w, x, y, z, 9);
  }

  lemma SharedBit(w: u32, x: nat, y: nat, z: nat, j: nat)
    requires j < 12 && x == And(And(w, 0xFFF), Not(W)) && y == Or(x, COW) && z == And(y, 0xFFF)
    ensures TestBit(z, j) <==> (TestBit(w, j) && j != 1) || j == 9
  {
    Pow2At12();
    assert Pow2(1) == W;
    LowBit(w, j);
    ClearedBit(And(w, 0xFFF), 1, W, j);
    OrBit(x, COW, j);
    PowerBit(9, j);
    LowBit(y, j);
  }

  /** Own: writable, no longer marked. */
  lemma OwnEntryIs(f: nat, w: u32)
    requires Present(w) && f < 0x10_0000
    ensures OwnEntry(f, w) < 0x1_0000_0000 && FrameOf(OwnEntry(f, w)) == f
    ensures Writable(OwnEntry(f, w)) && !Cow(OwnEntry(f, w)) && (UserPage(OwnEntry(f, w)) <==> UserPage(w))
  {
    var x := And(And(w, 0xFFF), Not(COW));
    LowBits(w);
    Pow2At12();
    OrBelow(x, W, 12);
    Joined(f, Or(x, W));
    OwnBit(w, x, 0); OwnBit(w, x, 1); OwnBit(w, x, 2); OwnBit(w, x, 9);
  }

  lemma OwnBit(w: u32, x: nat, j: nat)
    requires j < 12 && x == And(And(w, 0xFFF), Not(COW))
    ensures TestBit(Or(x, W), j) <==> (TestBit(w, j) && j != 9) || j == 1
  {
    Pow2At12();
    assert Pow2(1) == W;
    LowBit(w, j);
    ClearedBit(And(w, 0xFFF), 9, COW, j);
    OrBit(x, W, j);
    PowerBit(1, j);
  }
}
