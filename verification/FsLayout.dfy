/** The on-disk layout: superblock, fixed-size inodes, and one bit per block. */
module FsLayout {
  import opened Bits
  import opened Bytes
  import opened Words

  const BSIZE := 512
  const NDIRECT := 11
  const NINDIRECT := 128
  const MAXFILE := 16523
  const DINODE_SIZE := 80
  const FSMAGIC: u32 := 0x1020_3040
  const FS_VERSION: u32 := 3

  type u16 = x: nat | x < 0x1_0000

  type Disk = seq<seq<u8>>

  datatype Superblock = Superblock(magic: u32, size: u32, ninodes: u32, inodestart: u32, bmapstart: u32,
                                   version: u32, inodeSize: u32)

  datatype Dinode = Dinode(kind: u16, nlink: u16, mode: u16, uid: u16, gid: u16,
                           size: u32, atime: u32, mtime: u32, ctime: u32, addrs: seq<u32>)

  function CeilDiv(a: nat, b: nat): (q: nat)
    requires b > 0
    ensures a <= q * b < a + b
  {
    DivLe(a + b - 1, b);
    DivModSplit(a + b - 1, b);
    (a + b - 1) / b
  }

  /** The first block that holds neither inodes nor bitmap. */
  function DataStart(sb: Superblock): nat {
    sb.bmapstart + CeilDiv(sb.size, 4096)
  }

  /** The geometry mkfs lays down, on a disk large enough for it. */
  predicate Geometry(sb: Superblock) {
    && sb.inodestart == 2
    && sb.bmapstart as int == 2 + CeilDiv(sb.ninodes, 6)
    && DataStart(sb) <= sb.size
    && sb.ninodes >= 1
  }

  predicate Sized(d: Disk, sb: Superblock) {
    |d| == sb.size && forall b :: 0 <= b < |d| ==> |d[b]| == 512
  }

  // ---- superblock ----

  /** Zero bytes, as a fresh buffer holds. */
  function Zeros(n: nat): (z: seq<u8>)
    ensures |z| == n && forall i :: 0 <= i < n ==> z[i] == 0
  {
    seq(n, i => 0)
  }

  function DecodeSuperblock(buf: seq<u8>): Superblock
    requires |buf| == 512
  {
    Superblock(Read32(buf, 0), Read32(buf, 4), Read32(buf, 8), Read32(buf, 12), Read32(buf, 16), Read32(buf, 20),
        Read32(buf, 24))
  }

  /** Writing a word leaves every other aligned word as it was. */
  lemma WriteElsewhere(buf: seq<u8>, a: int, v: u32, c: int)
    requires InRange(buf, a) && InRange(buf, c) && (c + 4 <= a || a + 4 <= c)
    ensures Read32(Write32(buf, a, v), c) == Read32(buf, c)
  {
    WriteRead(buf, a, v);
  }

  /** Seven words in a row, read back. */
  method EncodeSuperblock(sb: Superblock) returns (buf: seq<u8>)
    ensures |buf| == 512 && DecodeSuperblock(buf) == sb
  {
    buf := Zeros(512);
    var fields := [sb.magic, sb.size, sb.ninodes, sb.inodestart, sb.bmapstart, sb.version, sb.inodeSize];
    var i := 0;
    while i < 7
      invariant 0 <= i <= 7 && |buf| == 512
      invariant forall j :: 0 <= j < i ==> Read32(buf, 4 * j) == fields[j]
    {
      ghost var before := buf;
      buf := Write32(buf, 4 * i, fields[i]);
      WriteRead(before, 4 * i, fields[i]);
      forall j | 0 <= j < i ensures Read32(buf, 4 * j) == fields[j] {
        WriteElsewhere(before, 4 * i, fields[i], 4 * j);
      }
      i := i + 1;
    }
    assert Read32(buf, 4 * 0) == fields[0] && Read32(buf, 4 * 1) == fields[1] && Read32(buf, 4 * 2) == fields[2]
        && Read32(buf, 4 * 3) == fields[3] && Read32(buf, 4 * 4) == fields[4] && Read32(buf, 4 * 5) == fields[5]
        && Read32(buf, 4 * 6) == fields[6];
  }

  // ---- inodes ----

  function Read16(buf: seq<u8>, a: nat): u16
    requires a + 2 <= |buf|
  {
    var lo: int, hi: int := buf[a], buf[a + 1];
    lo + 0x100 * hi
  }

  function Write16(buf: seq<u8>, a: nat, v: u16): (out: seq<u8>)
    requires a + 2 <= |buf|
    ensures |out| == |buf| && Read16(out, a) == v
    ensures forall i :: 0 <= i < |buf| && i != a && i != a + 1 ==> out[i] == buf[i]
  {
    buf[a := v % 0x100][a + 1 := v / 0x100]
  }

  function DecodeDinode(buf: seq<u8>, off: nat): (din: Dinode)
    requires off + 80 <= |buf|
    ensures |din.addrs| == 13
  {
    Dinode(Read16(buf, off), Read16(buf, off + 2), Read16(buf, off + 4), Read16(buf, off + 6), Read16(buf, off + 8),
           Read32(buf, off + 12), Read32(buf, off + 16), Read32(buf, off + 20), Read32(buf, off + 24),
           seq(13, i requires 0 <= i < 13 => Read32(buf, off + 28 + 4 * i)))
  }

  /** Decoding looks at the inode's own 80 bytes only. */
  lemma DecodeDepends(a: seq<u8>, b: seq<u8>, off: nat)
    requires |a| == |b| && off + 80 <= |a|
    requires forall i :: off <= i < off + 80 ==> a[i] == b[i]
    ensures DecodeDinode(a, off) == DecodeDinode(b, off)
  {
    var x, y := DecodeDinode(a, off), DecodeDinode(b, off);
    assert x.addrs == y.addrs;
  }

  predicate Same(a: seq<u8>, b: seq<u8>, lo: int, hi: int) {
    |a| == |b| && forall i :: 0 <= i < |a| && !(lo <= i < hi) ==> a[i] == b[i]
  }

  /** The first 28 bytes: everything but the block pointers. */
  method EncodeFixed(din: Dinode, buf: seq<u8>, off: nat) returns (out: seq<u8>)
    requires off + 80 <= |buf|
    ensures Same(out, buf, off, off + 28)
    ensures var r := DecodeDinode(out, off); r.(addrs := din.addrs) == din
    ensures out[off + 10] == out[off + 11] == 0
  {
    out := Write16(buf, off, din.kind);
    out := Write16(out, off + 2, din.nlink);
    out := Write16(out, off + 4, din.mode);
    out := Write16(out, off + 6, din.uid);
    out := Write16(out, off + 8, din.gid);
    out := out[off + 10 := 0][off + 11 := 0];
    ghost var ids := out;
    assert Read16(ids, off) == din.kind && Read16(ids, off + 2) == din.nlink && Read16(ids, off + 4) == din.mode
        && Read16(ids, off + 6) == din.uid && Read16(ids, off + 8) == din.gid;
    out := EncodeTimes(din, out, off);
  }

  method EncodeTimes(din: Dinode, buf: seq<u8>, off: nat) returns (out: seq<u8>)
    requires off + 80 <= |buf|
    ensures Same(out, buf, off + 12, off + 28)
    ensures Read32(out, off + 12) == din.size && Read32(out, off + 16) == din.atime
    ensures Read32(out, off + 20) == din.mtime && Read32(out, off + 24) == din.ctime
  {
    var b1 := Write32(buf, off + 12, din.size);
    WriteRead(buf, off + 12, din.size);
    var b2 := Write32(b1, off + 16, din.atime);
    WriteRead(b1, off + 16, din.atime);
    var b3 := Write32(b2, off + 20, din.mtime);
    WriteRead(b2, off + 20, din.mtime);
    out := Write32(b3, off + 24, din.ctime);
    WriteRead(b3, off + 24, din.ctime);
  }

  /** Encoding an inode makes it the one decoded there, and touches only its 80 bytes. */
  method EncodeDinode(din: Dinode, buf: seq<u8>, off: nat) returns (out: seq<u8>)
    requires off + 80 <= |buf| && |din.addrs| == 13
    ensures Same(out, buf, off, off + 80)
    ensures DecodeDinode(out, off) == din && out[off + 10] == out[off + 11] == 0
  {
    out := EncodeFixed(din, buf, off);
    ghost var fixed := out;
    var i := 0;
    while i < 13
      invariant 0 <= i <= 13 && Same(out, fixed, off + 28, off + 80)
      invariant forall j :: 0 <= j < i ==> Read32(out, off + 28 + 4 * j) == din.addrs[j]
    {
      ghost var before := out;
      out := Write32(out, off + 28 + 4 * i, din.addrs[i]);
      WriteRead(before, off + 28 + 4 * i, din.addrs[i]);
      forall j | 0 <= j < i ensures Read32(out, off + 28 + 4 * j) == din.addrs[j] {
        WriteElsewhere(before, off + 28 + 4 * i, din.addrs[i], off + 28 + 4 * j);
      }
      i := i + 1;
    }
    FixedDepends(out, fixed, off);
    assert DecodeDinode(out, off).addrs == din.addrs;
  }

  lemma FixedDepends(a: seq<u8>, b: seq<u8>, off: nat)
    requires off + 80 <= |b| && Same(a, b, off + 28, off + 80)
    ensures var x, y := DecodeDinode(a, off), DecodeDinode(b, off); x.(addrs := y.addrs) == y
  {
  }

  // ---- bitmap ----

  /** Block b's byte and bit in the bitmap. */
  function BitBlock(sb: Superblock, b: nat): nat { sb.bmapstart + b / 4096 }
  function BitByte(b: nat): nat { b % 4096 / 8 }
  function BitMask(b: nat): nat { Pow2(b % 8) }

  lemma BitInBitmap(sb: Superblock, b: nat)
    requires Geometry(sb) && b < sb.size
    ensures sb.bmapstart <= BitBlock(sb, b) < DataStart(sb) && BitByte(b) < 512
    ensures 1 <= BitMask(b) < 256
  {
    Pow2At8();
    Pow2Monotone(b % 8, 7);
    Pow2Monotone(7, 8);
  }

  /** Whether block b is marked allocated. */
  predicate Bit(d: Disk, sb: Superblock, b: nat)
    requires Geometry(sb) && Sized(d, sb) && b < sb.size
  {
    BitInBitmap(sb, b);
    And(d[BitBlock(sb, b)][BitByte(b)], BitMask(b)) != 0
  }

  lemma BitSplit(b: nat)
    ensures b == 4096 * (b / 4096) + 8 * BitByte(b) + b % 8
  {
    DivDiv(b, 8, 512);
    DivModUnique(b % 4096, b / 8 % 512, b % 8, 8);
  }

  /** Different blocks have different bits. */
  lemma BitPlace(sb: Superblock, b: nat, c: nat)
    requires BitBlock(sb, b) == BitBlock(sb, c) && BitByte(b) == BitByte(c) && b % 8 == c % 8
    ensures b == c
  {
    BitSplit(b);
    BitSplit(c);
  }

  lemma MaskBelow(k: nat)
    requires k < 8
    ensures 1 <= Pow2(k) <= 128
  {
    Pow2Monotone(k, 7);
  }

  lemma SetKeepsOthers(x: u8, k: nat, j: nat)
    requires k < 8 && j < 8
    ensures TestBit(Or(x, Pow2(k)), j) <==> j == k || TestBit(x, j)
  {
    OrBit(x, Pow2(k), j);
    PowerBit(k, j);
  }

  lemma ClearKeepsOthers(x: u8, k: nat, m: nat, j: nat)
    requires k < 8 && j < 8 && m == 255 - Pow2(k)
    ensures TestBit(And(x, m), j) <==> j != k && TestBit(x, j)
  {
    AndBit(x, m, j);
    Pow2At8();
    ComplementBit(8, k, j);
  }

  /** One byte after setting or clearing bit k. */
  function SetInByte(x: u8, k: nat, on: bool): (y: u8)
    requires k < 8
    ensures forall j :: 0 <= j < 8 ==> (TestBit(y, j) <==> if j == k then on else TestBit(x, j))
  {
    MaskBelow(k);
    Pow2At8();
    OrBelow(x, Pow2(k), 8);
    assert forall j :: 0 <= j < 8 ==>
      (TestBit(if on then Or(x, Pow2(k)) else And(x, 255 - Pow2(k)), j) <==> if j == k then on else TestBit(x, j)) by {
      forall j | 0 <= j < 8
        ensures TestBit(if on then Or(x, Pow2(k)) else And(x, 255 - Pow2(k)), j) <==>
          if j == k then on else TestBit(x, j)
      {
        SetKeepsOthers(x, k, j);
        ClearKeepsOthers(x, k, 255 - Pow2(k), j);
      }
    }
    if on then Or(x, Pow2(k)) else And(x, 255 - Pow2(k))
  }

  lemma BitIs(d: Disk, sb: Superblock, b: nat)
    requires Geometry(sb) && Sized(d, sb) && b < sb.size
    ensures BitBlock(sb, b) < |d| && BitByte(b) < 512
    ensures Bit(d, sb, b) <==> TestBit(d[BitBlock(sb, b)][BitByte(b)], b % 8)
  {
    BitInBitmap(sb, b);
    AndTestsBit(d[BitBlock(sb, b)][BitByte(b)], b % 8);
  }

  /** Setting or clearing one bit changes that bit and no block outside the bitmap. */
  lemma SetBitSpec(d: Disk, sb: Superblock, b: nat, on: bool, buf: seq<u8>, d': Disk)
    requires Geometry(sb) && Sized(d, sb) && b < sb.size && BitBlock(sb, b) < |d| && BitByte(b) < 512
    requires |buf| == 512 && buf[BitByte(b)] == SetInByte(d[BitBlock(sb, b)][BitByte(b)], b % 8, on)
    requires forall j :: 0 <= j < 512 && j != BitByte(b) ==> buf[j] == d[BitBlock(sb, b)][j]
    requires d' == d[BitBlock(sb, b) := buf]
    ensures Sized(d', sb)
    ensures forall c :: 0 <= c < sb.size ==> (Bit(d', sb, c) <==> if c == b then on else Bit(d, sb, c))
    ensures forall x :: 0 <= x < |d| && !(sb.bmapstart <= x < DataStart(sb)) ==> d'[x] == d[x]
  {
    BitInBitmap(sb, b);
    forall c | 0 <= c < sb.size ensures Bit(d', sb, c) <==> if c == b then on else Bit(d, sb, c) {
      BitIs(d, sb, c);
      BitIs(d', sb, c);
      if BitBlock(sb, b) == BitBlock(sb, c) && BitByte(b) == BitByte(c) && c % 8 == b % 8 { BitPlace(sb, b, c); }
    }
  }

  /** The bitmap depends on the bitmap blocks only. */
  lemma BitDepends(d: Disk, d': Disk, sb: Superblock)
    requires Geometry(sb) && Sized(d, sb) && Sized(d', sb)
    requires forall x :: sb.bmapstart <= x < DataStart(sb) ==> d'[x] == d[x]
    ensures forall c :: 0 <= c < sb.size ==> (Bit(d', sb, c) <==> Bit(d, sb, c))
  {
    forall c | 0 <= c < sb.size ensures Bit(d', sb, c) <==> Bit(d, sb, c) {
      BitInBitmap(sb, c);
    }
  }

  // ---- inode table ----

  function InodeBlock(sb: Superblock, i: nat): nat { sb.inodestart + i / 6 }
  function InodeOff(i: nat): nat { i % 6 * 80 }

  lemma InodeInTable(sb: Superblock, i: nat)
    requires Geometry(sb) && i < sb.ninodes
    ensures 2 <= InodeBlock(sb, i) < sb.bmapstart && InodeOff(i) + 80 <= 512
  {
  }

  function Inode(d: Disk, sb: Superblock, i: nat): (din: Dinode)
    requires Geometry(sb) && Sized(d, sb) && i < sb.ninodes
    ensures |din.addrs| == 13
  {
    InodeInTable(sb, i);
    DecodeDinode(d[InodeBlock(sb, i)], InodeOff(i))
  }

  /** Storing an inode changes that inode, no other inode and no block outside the inode table. */
  lemma UpdateSpec(d: Disk, sb: Superblock, i: nat, din: Dinode, buf: seq<u8>)
    requires Geometry(sb) && Sized(d, sb) && i < sb.ninodes && InodeBlock(sb, i) < |d| && InodeOff(i) + 80 <= 512
    requires Same(buf, d[InodeBlock(sb, i)], InodeOff(i), InodeOff(i) + 80) && |buf| == 512
      && DecodeDinode(buf, InodeOff(i)) == din
    ensures var d' := d[InodeBlock(sb, i) := buf];
      && Sized(d', sb)
      && (forall j :: 0 <= j < sb.ninodes ==> Inode(d', sb, j) == if j == i then din else Inode(d, sb, j))
      && (forall x :: 0 <= x < |d| && !(2 <= x < sb.bmapstart) ==> d'[x] == d[x])
  {
    InodeInTable(sb, i);
    var d' := d[InodeBlock(sb, i) := buf];
    forall j | 0 <= j < sb.ninodes ensures Inode(d', sb, j) == if j == i then din else Inode(d, sb, j) {
      InodeInTable(sb, j);
      if j != i && InodeBlock(sb, j) == InodeBlock(sb, i) {
        DecodeDepends(buf, d[InodeBlock(sb, i)], InodeOff(j));
      }
    }
  }

  lemma InodeDepends(d: Disk, d': Disk, sb: Superblock)
    requires Geometry(sb) && Sized(d, sb) && Sized(d', sb)
    requires forall x :: 2 <= x < sb.bmapstart ==> d'[x] == d[x]
    ensures forall j :: 0 <= j < sb.ninodes ==> Inode(d', sb, j) == Inode(d, sb, j)
  {
    forall j | 0 <= j < sb.ninodes ensures Inode(d', sb, j) == Inode(d, sb, j) {
      InodeInTable(sb, j);
    }
  }
}
