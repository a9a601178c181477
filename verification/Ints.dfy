/** Signed 32-bit arithmetic, as `int` has it on the guest machine. */
module Ints {
  predicate Int32(x: int) { -0x8000_0000 <= x < 0x8000_0000 }

  function Wrap(x: int): (w: int)
    ensures Int32(w)
  {
    (x + 0x8000_0000) % 0x1_0000_0000 - 0x8000_0000
  }

  lemma WrapFits(x: int)
    requires Int32(x)
    ensures Wrap(x) == x
  {
  }

  lemma WrapTwice(x: int, y: int)
    ensures Wrap(Wrap(x) + y) == Wrap(x + y)
  {
    var q := (x + 0x8000_0000) / 0x1_0000_0000;
    assert Wrap(x) == x - q * 0x1_0000_0000;
    assert (Wrap(x) + y + 0x8000_0000) % 0x1_0000_0000 == (x + y + 0x8000_0000) % 0x1_0000_0000 by {
      ModShift(x + y + 0x8000_0000, q);
    }
  }

  lemma ModShift(a: int, q: int)
    ensures (a - q * 0x1_0000_0000) % 0x1_0000_0000 == a % 0x1_0000_0000
  {
    var b := a - q * 0x1_0000_0000;
    assert b == (a / 0x1_0000_0000 - q) * 0x1_0000_0000 + a % 0x1_0000_0000;
  }
}
