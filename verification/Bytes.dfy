/** Bytes, and little-endian 32-bit words in a sequence of bytes. */
module Bytes {
  import opened Words

  type u8 = x: nat | x < 256

  predicate InRange(mem: seq<u8>, a: int) { 0 <= a && a + 4 <= |mem| }

  function Read32(mem: seq<u8>, a: int): u32
    requires InRange(mem, a)
  {
    var b0: int, b1: int, b2: int, b3: int := mem[a], mem[a + 1], mem[a + 2], mem[a + 3];
    b0 + 0x100 * b1 + 0x1_0000 * b2 + 0x100_0000 * b3
  }

  function Write32(mem: seq<u8>, a: int, v: u32): (m: seq<u8>)
    requires InRange(mem, a)
    ensures |m| == |mem|
  {
    mem[a := v % 0x100][a + 1 := v / 0x100 % 0x100][a + 2 := v / 0x1_0000 % 0x100][a + 3 := v / 0x100_0000]
  }

  /** A word written is read back, and no other byte changes. */
  lemma WriteRead(mem: seq<u8>, a: int, v: u32)
    requires InRange(mem, a)
    ensures Read32(Write32(mem, a, v), a) == v
    ensures forall i :: 0 <= i < |mem| && !(a <= i < a + 4) ==> Write32(mem, a, v)[i] == mem[i]
  {
    assert v == v % 0x100 + 0x100 * (v / 0x100 % 0x100) + 0x1_0000 * (v / 0x1_0000 % 0x100)
      + 0x100_0000 * (v / 0x100_0000);
  }

  lemma Digits(b0: u8, b1: u8, b2: u8, b3: u8)
    ensures var v: int := b0 as int + 0x100 * b1 as int + 0x1_0000 * b2 as int + 0x100_0000 * b3 as int;
      v % 0x100 == b0 && v / 0x100 % 0x100 == b1 && v / 0x1_0000 % 0x100 == b2 && v / 0x100_0000 == b3
  {
    var x0: int, x1: int, x2: int, x3: int := b0, b1, b2, b3;
    var v := x0 + 0x100 * x1 + 0x1_0000 * x2 + 0x100_0000 * x3;
    DivModUnique(v, x1 + 0x100 * x2 + 0x1_0000 * x3, x0, 0x100);
    DivModUnique(x1 + 0x100 * x2 + 0x1_0000 * x3, x2 + 0x100 * x3, x1, 0x100);
    DivModUnique(v, x2 + 0x100 * x3, x0 + 0x100 * x1, 0x1_0000);
    DivModUnique(x2 + 0x100 * x3, x3, x2, 0x100);
    DivModUnique(v, x3, x0 + 0x100 * x1 + 0x1_0000 * x2, 0x100_0000);
  }
}
