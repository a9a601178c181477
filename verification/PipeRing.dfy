/** The v3 pipe: a ring of bytes that is a first-in first-out queue of at most 512. */
module PipeRing {
  import opened Bytes

  const CFG_PIPESZ := 512

  /** The byte k places after the head. */
  function Slot(head: nat, k: nat): (i: nat)
    ensures i < 512
  {
    (head + k) % 512
  }

  lemma SlotStep(head: nat, k: nat)
    requires head < 512
    ensures Slot(Slot(head, 1), k) == Slot(head, k + 1)
  {
  }

  lemma SlotDistinct(head: nat, j: nat, k: nat)
    requires head < 512 && j < 512 && k < 512 && Slot(head, j) == Slot(head, k)
    ensures j == k
  {
  }

  class Pipe {
    var data: array<u8>
    var head: nat
    var count: nat

    ghost predicate Valid()
      reads this
    {
      data.Length == 512 && head < 512 && count <= 512
    }

    /** What the pipe holds, oldest first. */
    ghost function Contents(): (s: seq<u8>)
      requires Valid()
      reads this, data
      ensures |s| == count
    {
      seq(count, k requires 0 <= k < count reads this, data requires Valid() => data[Slot(head, k)])
    }

    /** An empty pipe. */
    constructor ()
      ensures Valid() && fresh(data) && Contents() == []
    {
      data := new u8[512];
      head, count := 0, 0;
    }

    /** Takes as many of the bytes as there is room for. */
    method Write(bytes: seq<u8>) returns (n: nat)
      requires Valid()
      modifies this`count, data
      ensures Valid()
      ensures n == if |bytes| > 512 - old(count) then 512 - old(count) else |bytes|
      ensures Contents() == old(Contents()) + bytes[..n]
    {
      var space := CFG_PIPESZ - count;
      n := |bytes|;
      if n > space {
        n := space;
      }
      ghost var before := Contents();
      var k := 0;
      while k < n
        invariant 0 <= k <= n && Valid() && count == old(count) + k && data == old(data)
        invariant Contents() == before + bytes[..k]
      {
        Put(bytes[k]);
        assert bytes[..k + 1] == bytes[..k] + [bytes[k]];
        k := k + 1;
      }
    }

    method Put(b: u8)
      requires Valid() && count < 512
      modifies this`count, data
      ensures Valid() && Contents() == old(Contents()) + [b] && count == old(count) + 1
    {
      ghost var before := Contents();
      var idx := Slot(head, count);
      forall k | 0 <= k < count ensures Slot(head, k) != idx {
        if Slot(head, k) == idx { SlotDistinct(head, k, count); }
      }
      data[idx] := b;
      count := count + 1;
      assert Contents() == before + [b];
    }

    /** Takes at most len of the oldest bytes. */
    method Read(len: nat) returns (bytes: seq<u8>)
      requires Valid()
      modifies this`head, this`count
      ensures Valid()
      ensures |bytes| == if len > old(count) then old(count) else len
      ensures old(Contents()) == bytes + Contents()
    {
      var n := len;
      if n > count {
        n := count;
      }
      bytes := [];
      ghost var before := Contents();
      var k := 0;
      while k < n
        invariant 0 <= k <= n && Valid() && count == old(count) - k && |bytes| == k && n <= old(count)
        invariant before == bytes + Contents()
      {
        ghost var rest := Contents();
        var b := Get();
        TakeOne(before, bytes, rest, b, Contents());
        bytes := bytes + [b];
        k := k + 1;
      }
    }

    method Get() returns (b: u8)
      requires Valid() && count > 0
      modifies this`head, this`count
      ensures Valid() && old(Contents()) == [b] + Contents() && count == old(count) - 1
    {
      ghost var before := Contents();
      b := data[head];
      assert before[0] == b;
      ghost var first := head;
      head := (head + 1) % CFG_PIPESZ;
      count := count - 1;
      forall k | 0 <= k < count ensures Contents()[k] == before[k + 1] {
        SlotStep(first, k);
      }
      assert before == [b] + Contents();
    }
  }

  lemma TakeOne(all: seq<u8>, taken: seq<u8>, rest: seq<u8>, b: u8, left: seq<u8>)
    requires all == taken + rest && rest == [b] + left
    ensures all == (taken + [b]) + left
  {
  }
}
