/** The v3 buffer cache: sixteen slots, filled first-in first-out and written through. A buffer pointer is a
    slot number; writing through one needs proof that the slot still holds the block it was read for. */
module BufferCache {
  import opened Bytes
  import opened FsLayout

  const NBUF := 16

  class Buffers {
    var disk: Disk
    const block: array<int>
    const data: array<seq<u8>>
    var next: nat
    var lastBlock: int
    var lastSlot: nat

    /** Slots hold blocks of the disk, no block twice. */
    ghost predicate Valid()
      reads this, block, data
    {
      && block.Length == 16 && data.Length == 16 && next < 16 && lastSlot < 16
      && (forall b :: 0 <= b < |disk| ==> |disk[b]| == 512)
      && (forall s :: 0 <= s < 16 ==> block[s] < |disk|)
      && (forall s :: 0 <= s < 16 && block[s] >= 0 ==> |data[s]| == 512)
      && (forall s, t :: 0 <= s < t < 16 && block[s] >= 0 ==> block[s] != block[t])
    }

    /** Every slot in use equals its block, but for one that is being written. */
    ghost predicate Coherent(dirty: int)
      requires block.Length == 16 && data.Length == 16
      reads this, block, data
    {
      forall s :: 0 <= s < 16 && s != dirty && 0 <= block[s] < |disk| ==> data[s] == disk[block[s]]
    }

    ghost predicate Clean()
      reads this, block, data
    {
      Valid() && Coherent(-1)
    }

    constructor (disk: Disk)
      requires forall b :: 0 <= b < |disk| ==> |disk[b]| == 512
      ensures Clean() && this.disk == disk && fresh(block) && fresh(data)
    {
      this.disk := disk;
      block := new int[16](i => -1);
      data := new seq<u8>[16](i => []);
      next, lastBlock, lastSlot := 0, -1, 0;
    }

    /** Every slot is empty; the fast path waits for a first lookup. */
    method Reset()
      requires Valid()
      modifies block, `lastBlock
      ensures Clean() && disk == old(disk) && lastBlock == -1 && forall s :: 0 <= s < 16 ==> block[s] == -1
    {
      var i := 0;
      while i < NBUF
        invariant 0 <= i <= 16 && Valid() && forall s :: 0 <= s < i ==> block[s] == -1
      {
        block[i] := -1;
        i := i + 1;
      }
      lastBlock := -1;
    }

    /** A block that was there stays where it is, with all others; one that was not takes the next slot in turn. */
    twostate predicate Rotates(b: nat, slot: nat)
      reads this, block, data
    {
      if exists s :: 0 <= s < block.Length && old(block[s]) == b then
        next == old(next) && block[..] == old(block[..]) && data[..] == old(data[..])
      else
        && slot == old(next) && next == (old(next) + 1) % NBUF && slot < block.Length && slot < data.Length
        && b < |disk| && block[..] == old(block[..])[slot := b] && data[..] == old(data[..])[slot := disk[b]]
    }

    /** The slot of a block, read from disk in place of the oldest when it has none. A block being written is
        found in its slot. */
    method Bread(b: nat, ghost dirty: int) returns (slot: nat)
      requires Valid() && Coherent(dirty) && b < |disk|
      requires 0 <= dirty < 16 ==> block[dirty] == b
      modifies block, data, `next, `lastBlock, `lastSlot
      ensures Valid() && Coherent(dirty) && slot < 16 && block[slot] == b
      ensures 0 <= dirty < 16 ==> slot == dirty && data[slot] == old(data[slot])
      ensures !(0 <= dirty < 16) ==> data[slot] == disk[b]
      ensures lastBlock == b && lastSlot == slot && Rotates(b, slot)
    {
      if b == lastBlock && block[lastSlot] == b {
        return lastSlot;
      }
      var found := Scan(b);
      if found >= 0 {
        lastBlock, lastSlot := b, found;
        return found;
      }
      slot := next;
      next := (next + 1) % NBUF;
      data[slot] := disk[b];
      block[slot] := b;
      lastBlock, lastSlot := b, slot;
    }

    /** The slot that holds a block, or -1. */
    method Scan(b: int) returns (slot: int)
      requires Valid()
      ensures slot == -1 ==> forall s :: 0 <= s < 16 ==> block[s] != b
      ensures slot != -1 ==> 0 <= slot < 16 && block[slot] == b
    {
      slot := 0;
      while slot < NBUF
        invariant 0 <= slot <= 16 && forall s :: 0 <= s < slot ==> block[s] != b
      {
        if block[slot] == b { return; }
        slot := slot + 1;
      }
      slot := -1;
    }

    /** Writes into a buffer. The slot must still hold the block it was handed out for. */
    method Poke(slot: nat, ghost b: nat, buf: seq<u8>)
      requires Clean() && slot < 16 && block[slot] == b && |buf| == 512
      modifies data
      ensures Valid() && Coherent(slot) && data[slot] == buf
    {
      data[slot] := buf;
    }

    /** Writes a buffer back to its block. */
    method Bwrite(b: nat, slot: nat)
      requires Valid() && Coherent(slot) && slot < 16 && block[slot] == b && b < |disk|
      modifies `disk
      ensures Clean() && disk == old(disk)[b := data[slot]]
    {
      disk := disk[b := data[slot]];
    }
  }
}
