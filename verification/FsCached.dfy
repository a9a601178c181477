/** The v3 filesystem over the buffer cache. Inodes live on the disk at all times, so the invariant is that of
    the block tree with the stored inode table. */
module FsCached {
  import opened Bytes
  import opened Folding
  import opened Ints
  import opened Words
  import opened FsLayout
  import opened FsTree
  import opened FsFile
  import opened BufferCache

  const EROFS := -30
  const EINVAL := -22
  const EFBIG := -27
  const ENOSPC := -28

  // ---- words of the inode table ----

  /** Writing block pointer k of an inode changes that pointer, and nothing else in the table. */
  lemma PointerWritten(d: Disk, sb: Superblock, i: nat, k: nat, v: u32, buf: seq<u8>)
    requires Geometry(sb) && Sized(d, sb) && i < sb.ninodes && k < 13 && InodeBlock(sb, i) < |d|
      && InodeOff(i) + 80 <= 512
    requires buf == Write32(d[InodeBlock(sb, i)], InodeOff(i) + (28 + 4 * k), v)
    ensures var d', din := d[InodeBlock(sb, i) := buf], Inode(d, sb, i);
      Sized(d', sb) && OutsideInodes(d, d', sb) && Stored(d', sb) == Hand(d, sb, i, din.(addrs := din.addrs[k := v]))
  {
    var off := InodeOff(i);
    var was := d[InodeBlock(sb, i)];
    var din := Inode(d, sb, i);
    var at := off + (28 + 4 * k);
    WriteRead(was, at, v);
    var din' := DecodeDinode(buf, off);
    FixedDepends(buf, was, off);
    forall j | 0 <= j < 13 ensures din'.addrs[j] == din.addrs[k := v][j] {
      if j != k { WriteElsewhere(was, at, v, off + 28 + 4 * j); }
    }
    assert din' == din.(addrs := din.addrs[k := v]);
    UpdateSpec(d, sb, i, din', buf);
    InodeInTable(sb, i);
    assert Stored(d[InodeBlock(sb, i) := buf], sb) == Hand(d, sb, i, din');
  }

  /** Writing an inode's size changes that size, and nothing else in the table. */
  lemma SizeWritten(d: Disk, sb: Superblock, i: nat, v: u32, buf: seq<u8>)
    requires Geometry(sb) && Sized(d, sb) && i < sb.ninodes && InodeBlock(sb, i) < |d| && InodeOff(i) + 80 <= 512
    requires buf == Write32(d[InodeBlock(sb, i)], InodeOff(i) + 12, v)
    ensures var d', din := d[InodeBlock(sb, i) := buf], Inode(d, sb, i);
      Sized(d', sb) && OutsideInodes(d, d', sb) && Stored(d', sb) == Hand(d, sb, i, din.(size := v))
  {
    var off := InodeOff(i);
    var was := d[InodeBlock(sb, i)];
    var din := Inode(d, sb, i);
    WriteRead(was, off + 12, v);
    var din' := DecodeDinode(buf, off);
    assert din'.addrs == din.addrs;
    assert din' == din.(size := v);
    UpdateSpec(d, sb, i, din', buf);
    InodeInTable(sb, i);
    assert Stored(d[InodeBlock(sb, i) := buf], sb) == Hand(d, sb, i, din');
  }

  /** An inode with some of its times set. */
  function Touched(din: Dinode, atime: bool, mtime: bool, ctime: bool, now: u32): Dinode {
    din.(atime := if atime then now else din.atime, mtime := if mtime then now else din.mtime,
        ctime := if ctime then now else din.ctime)
  }

  function TouchBytes(buf: seq<u8>, off: nat, atime: bool, mtime: bool, ctime: bool, now: u32): (r: seq<u8>)
    requires off + 80 <= |buf|
    ensures |r| == |buf|
  {
    var b1 := if atime then Write32(buf, off + 16, now) else buf;
    var b2 := if mtime then Write32(b1, off + 20, now) else b1;
    if ctime then Write32(b2, off + 24, now) else b2
  }

  lemma TouchDecoded(buf: seq<u8>, off: nat, atime: bool, mtime: bool, ctime: bool, now: u32)
    requires off + 80 <= |buf|
    ensures var r := TouchBytes(buf, off, atime, mtime, ctime, now);
      Same(r, buf, off + 16, off + 28)
        && DecodeDinode(r, off) == Touched(DecodeDinode(buf, off), atime, mtime, ctime, now)
  {
    var b1 := if atime then Write32(buf, off + 16, now) else buf;
    var b2 := if mtime then Write32(b1, off + 20, now) else b1;
    TimeDecoded(buf, off, 16, now);
    TimeDecoded(b1, off, 20, now);
    TimeDecoded(b2, off, 24, now);
  }

  lemma TimeDecoded(buf: seq<u8>, off: nat, at: nat, now: u32)
    requires off + 80 <= |buf| && at in {16, 20, 24}
    ensures var r, din := Write32(buf, off + at, now), DecodeDinode(buf, off);
      Same(r, buf, off + 16, off + 28) && DecodeDinode(r, off) ==
        din.(atime := if at == 16 then now else din.atime, mtime := if at == 20 then now else din.mtime,
            ctime := if at == 24 then now else din.ctime)
  {
    WriteRead(buf, off + at, now);
    var r := Write32(buf, off + at, now);
    assert DecodeDinode(r, off).addrs == DecodeDinode(buf, off).addrs;
  }

  lemma TouchWritten(d: Disk, sb: Superblock, i: nat, atime: bool, mtime: bool, ctime: bool, now: u32, buf: seq<u8>)
    requires Geometry(sb) && Sized(d, sb) && i < sb.ninodes && InodeBlock(sb, i) < |d| && InodeOff(i) + 80 <= 512
    requires buf == TouchBytes(d[InodeBlock(sb, i)], InodeOff(i), atime, mtime, ctime, now)
    ensures var d', din := d[InodeBlock(sb, i) := buf], Inode(d, sb, i);
      Sized(d', sb) && OutsideInodes(d, d', sb)
        && Stored(d', sb) == Hand(d, sb, i, Touched(din, atime, mtime, ctime, now))
  {
    TouchDecoded(d[InodeBlock(sb, i)], InodeOff(i), atime, mtime, ctime, now);
    var din' := Touched(Inode(d, sb, i), atime, mtime, ctime, now);
    UpdateSpec(d, sb, i, din', buf);
    InodeInTable(sb, i);
    assert Stored(d[InodeBlock(sb, i) := buf], sb) == Hand(d, sb, i, din');
  }

  // ---- attaching a block ----

  /** Every data pointer of every inode is as it was, but that of file block n of inode i. */
  ghost predicate OnlyBlock(d: Disk, t: Table, d': Disk, t': Table, i: nat, n: nat)
    requires Shaped(t) && Shaped(t') && |t| == |t'|
  {
    forall i', n' {:trigger Ptr(d', t'[i'].addrs, DataPos(n'))} ::
      1 <= i' < |t| && 0 <= n' < 16523 && (i', n') != (i, n) ==>
      Ptr(d', t'[i'].addrs, DataPos(n')) == Ptr(d, t[i'].addrs, DataPos(n'))
  }

  lemma OnlyBlockTrans(d: Disk, t: Table, d1: Disk, t1: Table, d2: Disk, t2: Table, i: nat, n: nat)
    requires Shaped(t) && Shaped(t1) && Shaped(t2) && |t| == |t1| == |t2|
    requires OnlyBlock(d, t, d1, t1, i, n) && OnlyBlock(d1, t1, d2, t2, i, n)
    ensures OnlyBlock(d, t, d2, t2, i, n)
  {
    forall i', n' | 1 <= i' < |t| && 0 <= n' < 16523 && (i', n') != (i, n)
      ensures Ptr(d2, t2[i'].addrs, DataPos(n')) == Ptr(d, t[i'].addrs, DataPos(n'))
    {
      assert Ptr(d1, t1[i'].addrs, DataPos(n')) == Ptr(d, t[i'].addrs, DataPos(n'));
    }
  }

  /** A table, or the block itself, put in place: no other data pointer moves. */
  lemma MovedOnly(d: Disk, t: Table, d': Disk, t': Table, i: nat, p: Pos, b: nat, n: nat)
    requires Shaped(t) && Shaped(t') && |t| == |t'| && n < 16523 && Moved(d, t, d', t', i, p, b)
      && (IsData(p) ==> p == DataPos(n))
    ensures OnlyBlock(d, t, d', t', i, n)
  {
    forall i', n' | 1 <= i' < |t| && 0 <= n' < 16523 && (i', n') != (i, n)
      ensures Ptr(d', t'[i'].addrs, DataPos(n')) == Ptr(d, t[i'].addrs, DataPos(n'))
    {
      if DataPos(n') == DataPos(n) { DataPosInjective(n', n); }
    }
  }

  // The larger facts stay folded behind Shown, so that a method sees only what it asks for.

  /** The tree invariant over the stored inode table. */
  ghost predicate Sound(d: Disk, sb: Superblock, own: map<nat, Owner>) {
    Geometry(sb) && Sized(d, sb) && forall k :: Shown(k, d, own) ==> Inv(d, sb, Stored(d, sb), own)
  }

  lemma ShowSound(d: Disk, sb: Superblock, own: map<nat, Owner>)
    requires Sound(d, sb, own)
    ensures Inv(d, sb, Stored(d, sb), own)
  {
    assert Shown(0, d, own);
  }

  /** From d to d' nothing a file shows has changed, and no mapping but that of block n of inode i; the rest
      of every inode is as it was. */
  ghost predicate Grew(d: Disk, d': Disk, sb: Superblock, i: nat, n: nat) {
    && Geometry(sb) && Sized(d, sb) && Sized(d', sb)
    && forall k :: Shown(k, d, d') ==> GrewBy(d, Stored(d, sb), d', Stored(d', sb), i, n)
  }

  ghost predicate GrewBy(d: Disk, t: Table, d': Disk, t': Table, i: nat, n: nat)
    requires Shaped(t) && Shaped(t') && |t| == |t'|
  {
    && SameBytes(d, t, d', t') && OnlyBlock(d, t, d', t', i, n)
    && forall j :: 0 <= j < |t| ==> t'[j] == t[j].(addrs := t'[j].addrs) && (j != i ==> t'[j] == t[j])
  }

  lemma ShowGrew(d: Disk, d': Disk, sb: Superblock, i: nat, n: nat)
    requires Grew(d, d', sb, i, n)
    ensures GrewBy(d, Stored(d, sb), d', Stored(d', sb), i, n)
  {
    assert Shown(0, d, d');
  }

  lemma GrewTrans(d: Disk, d1: Disk, d2: Disk, sb: Superblock, i: nat, n: nat)
    requires Grew(d, d1, sb, i, n) && Grew(d1, d2, sb, i, n)
    ensures Grew(d, d2, sb, i, n)
  {
    ShowGrew(d, d1, sb, i, n);
    ShowGrew(d1, d2, sb, i, n);
    SameBytesTrans(d, Stored(d, sb), d1, Stored(d1, sb), d2, Stored(d2, sb));
    OnlyBlockTrans(d, Stored(d, sb), d1, Stored(d1, sb), d2, Stored(d2, sb), i, n);
  }

  lemma GrewNot(d: Disk, sb: Superblock, i: nat, n: nat)
    requires Geometry(sb) && Sized(d, sb)
    ensures Grew(d, d, sb, i, n)
  {
  }

  /** A fresh block in an empty slot of a stored inode. */
  lemma SlotAttached(d: Disk, d1: Disk, d2: Disk, sb: Superblock, own: map<nat, Owner>, i: nat, k: nat, b: u32, n: nat)
    requires Sound(d, sb, own) && Allocated(d, d1, sb, b) && 1 <= i < sb.ninodes && k < 13 && n < 16523
    requires Inode(d, sb, i).addrs[k] == 0 && (k < 11 ==> DataPos(n) == Slot(k))
    requires Sized(d2, sb) && OutsideInodes(d1, d2, sb)
    requires Inode(d1, sb, i) == Inode(d, sb, i)
    requires Stored(d2, sb) == Hand(d1, sb, i, Inode(d, sb, i).(addrs := Inode(d, sb, i).addrs[k := b]))
    ensures Sound(d2, sb, own[b := Owner(i, Slot(k))]) && Grew(d, d2, sb, i, n)
    ensures Inode(d2, sb, i).addrs[k] == b
    ensures k >= 11 ==> Ptr(d2, Inode(d2, sb, i).addrs, DataPos(n)) == Ptr(d, Inode(d, sb, i).addrs, DataPos(n))
  {
    ShowSound(d, sb, own);
    var din := Inode(d, sb, i);
    var din' := din.(addrs := din.addrs[k := b]);
    HandOfStored(d, sb, i);
    SlotFilled(d, d1, sb, own, i, din, din', k, b);
    var t, t' := Stored(d, sb), Hand(d1, sb, i, din');
    UpdateKeeps(d1, d2, sb, t', own[b := Owner(i, Slot(k))]);
    SameBytesTrans(d, t, d1, t', d2, t');
    KeptPointers(d1, d2, sb, t', own[b := Owner(i, Slot(k))], i, n);
    MovedOnly(d, t, d1, t', i, Slot(k), b, n);
    OnlyBlockTrans(d, t, d1, t', d2, t', i, n);
    assert t'[i] == din' && Stored(d2, sb)[i] == Inode(d2, sb, i);
    HandSame(d, d1, sb, i, din, din');
  }

  lemma KeptPointers(d: Disk, d': Disk, sb: Superblock, t: Table, own: map<nat, Owner>, i: nat, n: nat)
    requires Inv(d, sb, t, own) && Sized(d', sb) && OutsideInodes(d, d', sb) && 1 <= i < |t| && n < 16523
    ensures OnlyBlock(d, t, d', t, i, n) && Ptr(d', t[i].addrs, DataPos(n)) == Ptr(d, t[i].addrs, DataPos(n))
  {
    forall c | 0 <= c < |d| && c in own ensures d'[c] == d[c] {
      OwnedBlock(d, t, own, DataStart(sb), sb.size, c);
    }
    forall i', n' | 1 <= i' < |t| && 0 <= n' < 16523
      ensures Ptr(d', t[i'].addrs, DataPos(n')) == Ptr(d, t[i'].addrs, DataPos(n'))
    {
      KeepsPointers(d, d', t, own, DataStart(sb), sb.size, i', DataPos(n'));
    }
  }

  /** Allocating and then storing the pointer. */
  lemma SlotSteps(d: Disk, d1: Disk, d2: Disk, sb: Superblock, own: map<nat, Owner>, i: nat, k: nat, b: u32, n: nat)
    requires Sound(d, sb, own) && Allocated(d, d1, sb, b) && 1 <= i < sb.ninodes && k < 13 && n < 16523
    requires Inode(d, sb, i).addrs[k] == 0 && (k < 11 ==> DataPos(n) == Slot(k))
    requires InodeBlock(sb, i) < |d1| && InodeOff(i) + 80 <= 512 && |d1[InodeBlock(sb, i)]| == 512
    requires d2 == d1[InodeBlock(sb, i) := Write32(d1[InodeBlock(sb, i)], InodeOff(i) + (28 + 4 * k), b)]
    ensures Sound(d2, sb, own[b := Owner(i, Slot(k))]) && Grew(d, d2, sb, i, n) && b !in own
    ensures Inode(d2, sb, i).addrs == Inode(d, sb, i).addrs[k := b]
    ensures k >= 11 ==> Ptr(d2, Inode(d2, sb, i).addrs, DataPos(n)) == Ptr(d, Inode(d, sb, i).addrs, DataPos(n))
  {
    ShowSound(d, sb, own);
    AllocatedKeeps(d, d1, sb, Stored(d, sb), own, b);
    InodeDepends(d, d1, sb);
    PointerWritten(d1, sb, i, k, b, d2[InodeBlock(sb, i)]);
    SlotAttached(d, d1, d2, sb, own, i, k, b, n);
    PointerOf(d1, d2, sb, i, Inode(d, sb, i), k, b);
    Unmarked(d, sb, Stored(d, sb), own, b);
  }

  /** A fresh block in an empty entry of a table of a stored inode. */
  lemma EntryAttached(d: Disk, d1: Disk, d2: Disk, sb: Superblock, own: map<nat, Owner>, i: nat, p: Pos, tb: nat,
                      b: u32, n: nat)
    requires Sound(d, sb, own) && Allocated(d, d1, sb, b) && 1 <= i < sb.ninodes && ValidPos(p) && !p.Slot? && n < 16523
    requires IsData(p) ==> p == DataPos(n)
    requires Ptr(d, Inode(d, sb, i).addrs, p) == 0 && tb == Ptr(d, Inode(d, sb, i).addrs, Parent(p)) != 0 && tb < |d|
      && |d1[tb]| == 512
    requires Index(p) < 128 && d2 == d1[tb := Write32(d1[tb], 4 * Index(p), b)]
    ensures Sound(d2, sb, own[b := Owner(i, p)]) && Grew(d, d2, sb, i, n) && b !in own
    ensures Inode(d2, sb, i) == Inode(d, sb, i) && Ptr(d2, Inode(d, sb, i).addrs, p) == b
    ensures !IsData(p) ==> Ptr(d2, Inode(d, sb, i).addrs, DataPos(n)) == Ptr(d, Inode(d, sb, i).addrs, DataPos(n))
  {
    ShowSound(d, sb, own);
    var din := Inode(d, sb, i);
    HandOfStored(d, sb, i);
    EntryFilledOk(d, d1, d2, sb, own, i, din, p, tb, b);
    var t := Stored(d, sb);
    InodeDepends(d, d2, sb);
    assert Stored(d2, sb) == t;
    assert Hand(d2, sb, i, din) == t;
    MovedOnly(d, t, d2, t, i, p, b, n);
    Unmarked(d, sb, t, own, b);
  }

  lemma MarkedMetadata(d: Disk, sb: Superblock, own: map<nat, Owner>)
    requires Sound(d, sb, own)
    ensures forall c :: 0 <= c < DataStart(sb) ==> Bit(d, sb, c)
  {
    ShowSound(d, sb, own);
    MetadataMarked(d, sb, Stored(d, sb), own);
  }

  /** Pointers of stored inodes stay on the disk. */
  lemma InUse(d: Disk, sb: Superblock, own: map<nat, Owner>, i: nat, p: Pos)
    requires Sound(d, sb, own) && 1 <= i < sb.ninodes && ValidPos(p)
    ensures var b := Ptr(d, Inode(d, sb, i).addrs, p); b != 0 ==> b < |d| && |d[b]| == 512
  {
    ShowSound(d, sb, own);
    assert Stored(d, sb)[i] == Inode(d, sb, i);
    OwnedPtr(d, Stored(d, sb), own, DataStart(sb), sb.size, i, p);
  }

  // ---- files ----

  /** The whole invariant over the stored inode table. */
  ghost predicate Neat(d: Disk, sb: Superblock, own: map<nat, Owner>) {
    Geometry(sb) && Sized(d, sb) && forall k :: Shown(k, d, own) ==> Tidy(d, sb, Stored(d, sb), own)
  }

  lemma ShowNeat(d: Disk, sb: Superblock, own: map<nat, Owner>)
    requires Neat(d, sb, own)
    ensures Tidy(d, sb, Stored(d, sb), own)
    ensures forall i :: 1 <= i < sb.ninodes ==> Inode(d, sb, i).size <= 8459776
  {
    assert Shown(0, d, own);
    forall i | 1 <= i < sb.ninodes ensures Inode(d, sb, i).size <= 8459776 {
      assert Stored(d, sb)[i] == Inode(d, sb, i);
    }
  }

  lemma NeatIsSound(d: Disk, sb: Superblock, own: map<nat, Owner>)
    requires Neat(d, sb, own)
    ensures Sound(d, sb, own) && forall i :: 1 <= i < sb.ninodes ==> Inode(d, sb, i).size <= 8459776
  {
    ShowNeat(d, sb, own);
  }

  /** The bytes of a stored file. */
  function FileOf(d: Disk, sb: Superblock, i: nat): seq<u8>
    requires Geometry(sb) && Sized(d, sb) && i < sb.ninodes
  {
    if Inode(d, sb, i).size <= 8459776 then Content(d, Inode(d, sb, i)) else []
  }

  /** The first n bytes of data are in file i at off; nothing else that a file shows has changed, and of the
      inodes only pointers of inode i. */
  ghost predicate Wrote(d: Disk, d': Disk, sb: Superblock, i: nat, off: nat, data: seq<u8>, n: nat) {
    && Geometry(sb) && Sized(d, sb) && Sized(d', sb) && n <= |data|
    && forall k :: Shown(k, d, d') ==> WroteBy(d, Stored(d, sb), d', Stored(d', sb), i, off, data, n)
  }

  ghost predicate WroteBy(d: Disk, t: Table, d': Disk, t': Table, i: nat, off: nat, data: seq<u8>, n: nat)
    requires Shaped(t) && Shaped(t') && |t| == |t'| && n <= |data|
  {
    && Written(d, t, d', t', i, off, data, n)
    && forall j :: 0 <= j < |t| ==> t'[j] == t[j].(addrs := t'[j].addrs) && (j != i ==> t'[j] == t[j])
  }

  lemma ShowWrote(d: Disk, d': Disk, sb: Superblock, i: nat, off: nat, data: seq<u8>, n: nat)
    requires Wrote(d, d', sb, i, off, data, n)
    ensures WroteBy(d, Stored(d, sb), d', Stored(d', sb), i, off, data, n)
  {
    assert Shown(0, d, d');
  }

  lemma WroteNothing(d: Disk, sb: Superblock, i: nat, off: nat, data: seq<u8>)
    requires Geometry(sb) && Sized(d, sb)
    ensures Wrote(d, d, sb, i, off, data, 0)
  {
  }

  lemma WroteGrew(d: Disk, d1: Disk, d2: Disk, sb: Superblock, i: nat, off: nat, data: seq<u8>, n: nat, bn: nat)
    requires Wrote(d, d1, sb, i, off, data, n) && Grew(d1, d2, sb, i, bn)
    ensures Wrote(d, d2, sb, i, off, data, n)
  {
    ShowWrote(d, d1, sb, i, off, data, n);
    ShowGrew(d1, d2, sb, i, bn);
    WrittenSame(d, Stored(d, sb), d1, Stored(d1, sb), d2, Stored(d2, sb), i, off, data, n);
  }

  lemma WroteChunk(d: Disk, d1: Disk, d2: Disk, sb: Superblock, own: map<nat, Owner>, i: nat, off: nat, data: seq<u8>,
                   src: nat, take: nat, n: nat, block: nat, within: nat, buf: seq<u8>)
    requires Wrote(d, d1, sb, i, off, data, src) && Sound(d1, sb, own) && 1 <= i < sb.ninodes
    requires n == (off + src) / 512 && within == (off + src) % 512 && off + |data| <= 8459776 && 0 < take
      && within + take <= 512
    requires src + take <= |data| && n < 16523 && block == Ptr(d1, Inode(d1, sb, i).addrs, DataPos(n)) != 0
      && block < |d1| && |d1[block]| == 512
    requires buf == d1[block][..within] + data[src..src + take] + d1[block][within + take..] && d2 == d1[block := buf]
    ensures Sound(d2, sb, own) && Wrote(d, d2, sb, i, off, data, src + take)
  {
    ShowSound(d1, sb, own);
    ShowWrote(d, d1, sb, i, off, data, src);
    var din := Inode(d1, sb, i);
    HandOfStored(d1, sb, i);
    BlockWritten(d1, d2, sb, own, i, din, n, block, buf);
    var t1 := Stored(d1, sb);
    InodeDepends(d1, d2, sb);
    assert Stored(d2, sb) == t1;
    ChunkWritten(d, Stored(d, sb), d1, d2, t1, i, off, data, src, take, n, block, within, buf);
  }

  /** After the bytes are in place the inode gets its size and times. */
  lemma WriteDone(d: Disk, d1: Disk, d2: Disk, sb: Superblock, own: map<nat, Owner>, own1: map<nat, Owner>, i: nat,
                  off: nat, data: seq<u8>, din: Dinode)
    requires Neat(d, sb, own) && Sound(d1, sb, own1) && Wrote(d, d1, sb, i, off, data, |data|) && 1 <= i < sb.ninodes
    requires off + |data| <= 8459776 && Sized(d2, sb) && OutsideInodes(d1, d2, sb) && |din.addrs| == 13
      && Stored(d2, sb) == Hand(d1, sb, i, din)
    requires din.addrs == Inode(d1, sb, i).addrs
    requires din.size as int == if off + |data| > Inode(d, sb, i).size then off + |data| else Inode(d, sb, i).size
    ensures Neat(d2, sb, own1) && FileOf(d2, sb, i) == Overlaid(FileOf(d, sb, i), off, data)
    ensures forall j :: 1 <= j < sb.ninodes && j != i ==>
      FileOf(d2, sb, j) == FileOf(d, sb, j) && Inode(d2, sb, j) == Inode(d, sb, j)
  {
    ShowNeat(d, sb, own);
    ShowSound(d1, sb, own1);
    ShowWrote(d, d1, sb, i, off, data, |data|);
    var t, t1, t2 := Stored(d, sb), Stored(d1, sb), Stored(d2, sb);
    assert t[i] == Inode(d, sb, i) && t1[i] == Inode(d1, sb, i) && t2[i] == din;
    assert t2 == t1[i := din];
    WriteDoneTables(d, t, d1, t1, d2, t2, sb, own, own1, i, off, data);
    FilesAre(d, d2, sb, i, off, data);
  }

  /** A write that found no room has changed no file. */
  lemma NothingWritten(d: Disk, d': Disk, sb: Superblock, own: map<nat, Owner>, own': map<nat, Owner>, i: nat, off: nat,
                       data: seq<u8>)
    requires Neat(d, sb, own) && Sound(d', sb, own') && Wrote(d, d', sb, i, off, data, 0)
    ensures Neat(d', sb, own') && forall j :: 1 <= j < sb.ninodes ==> FileOf(d', sb, j) == FileOf(d, sb, j)
  {
    ShowNeat(d, sb, own);
    ShowSound(d', sb, own');
    ShowWrote(d, d', sb, i, off, data, 0);
    var t, t' := Stored(d, sb), Stored(d', sb);
    forall j | 1 <= j < |t|
      ensures t'[j].size == t[j].size <= 8459776 && TailZero(d', t'[j]) && Content(d', t'[j]) == Content(d, t[j])
    {
      SameFile(d, t, d', t', i, off, data, j);
    }
    forall j | 1 <= j < sb.ninodes ensures FileOf(d', sb, j) == FileOf(d, sb, j) {
      assert t[j] == Inode(d, sb, j) && t'[j] == Inode(d', sb, j);
    }
  }

  lemma SameFile(d: Disk, t: Table, d': Disk, t': Table, i: nat, off: nat, data: seq<u8>, j: nat)
    requires Shaped(t) && Shaped(t') && |t| == |t'| && 1 <= j < |t| && t[j].size == t'[j].size <= 8459776
      && TailZero(d, t[j])
    requires Written(d, t, d', t', i, off, data, 0)
    ensures TailZero(d', t'[j]) && Content(d', t'[j]) == Content(d, t[j])
  {
    forall x | 0 <= x < 8459776 ensures Byte(d', t'[j].addrs, x) == Byte(d, t[j].addrs, x) { }
    var c, o := Content(d', t'[j]), Content(d, t[j]);
    forall x | 0 <= x < |c| ensures c[x] == o[x] {
      assert Byte(d', t'[j].addrs, x) == Byte(d, t[j].addrs, x);
    }
  }

  lemma FilesAre(d: Disk, d2: Disk, sb: Superblock, i: nat, off: nat, data: seq<u8>)
    requires Geometry(sb) && Sized(d, sb) && Sized(d2, sb) && 1 <= i < sb.ninodes
    requires var t, t2 := Stored(d, sb), Stored(d2, sb);
      && (forall j :: 1 <= j < sb.ninodes ==> t[j].size <= 8459776 && t2[j].size <= 8459776)
      && Content(d2, t2[i]) == Overlaid(Content(d, t[i]), off, data)
      && (forall j :: 1 <= j < sb.ninodes && j != i ==> t2[j] == t[j] && Content(d2, t2[j]) == Content(d, t[j]))
    ensures FileOf(d2, sb, i) == Overlaid(FileOf(d, sb, i), off, data)
    ensures forall j :: 1 <= j < sb.ninodes && j != i ==>
      FileOf(d2, sb, j) == FileOf(d, sb, j) && Inode(d2, sb, j) == Inode(d, sb, j)
  {
    var t, t2 := Stored(d, sb), Stored(d2, sb);
    assert t[i] == Inode(d, sb, i) && t2[i] == Inode(d2, sb, i);
    forall j | 1 <= j < sb.ninodes && j != i
      ensures FileOf(d2, sb, j) == FileOf(d, sb, j) && Inode(d2, sb, j) == Inode(d, sb, j)
    {
      assert t2[j] == t[j] && t[j] == Inode(d, sb, j) && t2[j] == Inode(d2, sb, j);
    }
  }

  lemma WriteDoneTables(d: Disk, t: Table, d1: Disk, t1: Table, d2: Disk, t2: Table, sb: Superblock,
                        own: map<nat, Owner>, own1: map<nat, Owner>, i: nat, off: nat, data: seq<u8>)
    requires Tidy(d, sb, t, own) && Inv(d1, sb, t1, own1) && 1 <= i < |t| && off + |data| <= 8459776
    requires WroteBy(d, t, d1, t1, i, off, data, |data|) && Sized(d2, sb) && OutsideInodes(d1, d2, sb)
    requires |t2| == |t1| && Shaped(t2) && t2 == t1[i := t2[i]] && t2[i].addrs == t1[i].addrs
    requires t2[i].size as int == if off + |data| > t[i].size then off + |data| else t[i].size
    ensures Tidy(d2, sb, t2, own1) && Content(d2, t2[i]) == Overlaid(Content(d, t[i]), off, data)
    ensures forall j :: 1 <= j < |t| && j != i ==> t2[j] == t[j] && Content(d2, t2[j]) == Content(d, t[j])
  {
    SizeOnly(d1, sb, t1, t2, own1, d, t, i, off, data);
    WrittenTidy(d, t, d1, t2, sb, own, own1, i, off, data);
    UpdateKeeps(d1, d2, sb, t2, own1);
    TidySame(d1, t2, d2, sb, own1);
    forall j | 1 <= j < |t| ensures Content(d2, t2[j]) == Content(d1, t2[j]) { }
  }

  // ---- the filesystem ----

  class Fs {
    const buf: Buffers
    var sb: Superblock
    var readOnly: bool
    var hint: nat
    ghost var owner: map<nat, Owner>

    constructor (buf: Buffers)
      ensures this.buf == buf && hint == 0 && !readOnly
    {
      this.buf, sb, readOnly, hint, owner := buf, Superblock(0, 0, 0, 0, 0, 0, 0), false, 0, map[];
    }

    /** Empties the cache and takes the geometry from block 1; refuses a disk of another kind. */
    method Mount() returns (ok: bool)
      requires buf.Valid() && |buf.disk| >= 2
      modifies buf, buf.block, buf.data, `sb, `readOnly
      ensures buf.Clean() && buf.disk == old(buf.disk) && |buf.disk[1]| == 512
      ensures var s := DecodeSuperblock(buf.disk[1]);
        ok <==> s.magic == FSMAGIC && s.version == FS_VERSION && s.inodeSize == DINODE_SIZE
      ensures ok ==> sb == DecodeSuperblock(buf.disk[1]) && !readOnly
      ensures !ok ==> sb == old(sb) && readOnly == old(readOnly)
    {
      buf.Reset();
      var data := buf.Bread(1, -1);
      var s := DecodeSuperblock(buf.data[data]);
      ok := s.magic == FSMAGIC && s.version == FS_VERSION && s.inodeSize == DINODE_SIZE;
      if ok {
        sb, readOnly := s, false;
      }
    }

    ghost predicate Ready()
      reads this, buf, buf.block, buf.data
    {
      buf.Clean() && Geometry(sb) && Sized(buf.disk, sb)
    }

    ghost predicate Good()
      reads this, buf, buf.block, buf.data
    {
      buf.Clean() && Sound(buf.disk, sb, owner)
    }

    // ---- reading and writing through the cache ----

    method ReadWord(b: nat, off: nat) returns (v: u32)
      requires buf.Clean() && b < |buf.disk| && off + 4 <= 512
      modifies buf, buf.block, buf.data
      ensures buf.Clean() && buf.disk == old(buf.disk) && |buf.disk[b]| == 512 && v == Read32(buf.disk[b], off)
    {
      var data := buf.Bread(b, -1);
      v := Read32(buf.data[data], off);
    }

    /** Read, change a word, write back. */
    method WriteWord(b: nat, off: nat, v: u32)
      requires buf.Clean() && b < |buf.disk| && off + 4 <= 512
      modifies buf, buf.block, buf.data
      ensures buf.Clean() && |old(buf.disk)[b]| == 512
        && buf.disk == old(buf.disk)[b := Write32(old(buf.disk)[b], off, v)]
    {
      var data := buf.Bread(b, -1);
      buf.Poke(data, b, Write32(buf.data[data], off, v));
      buf.Bwrite(b, data);
    }

    method InodeSlot(inum: nat, k: nat) returns (v: u32)
      requires Ready() && inum < sb.ninodes && k < 13
      modifies buf, buf.block, buf.data
      ensures Ready() && buf.disk == old(buf.disk) && v == Inode(buf.disk, sb, inum).addrs[k]
    {
      InodeInTable(sb, inum);
      v := ReadWord(InodeBlock(sb, inum), InodeOff(inum) + 28 + 4 * k);
    }

    /** Writes a word of an inode. The inode block is looked up a second time to be written back, and is then
        found where it was, with the new word in it. */
    method InodeSet32(inum: nat, offset: nat, v: u32)
      requires Ready() && inum < sb.ninodes && offset + 4 <= 80
      modifies buf, buf.block, buf.data
      ensures buf.Clean() && InodeBlock(sb, inum) < |old(buf.disk)| && InodeOff(inum) + 80 <= 512
      ensures var b := InodeBlock(sb, inum);
        |old(buf.disk)[b]| == 512
          && buf.disk == old(buf.disk)[b := Write32(old(buf.disk)[b], InodeOff(inum) + offset, v)]
    {
      InodeInTable(sb, inum);
      var b := InodeBlock(sb, inum);
      var addr := buf.Bread(b, -1);
      buf.Poke(addr, b, Write32(buf.data[addr], InodeOff(inum) + offset, v));
      var again := buf.Bread(b, addr);
      buf.Bwrite(b, again);
    }

    // ---- bitmap ----

    method BitmapTest(b: nat) returns (on: bool)
      requires Ready() && b < sb.size
      modifies buf, buf.block, buf.data
      ensures Ready() && buf.disk == old(buf.disk) && (on <==> Bit(buf.disk, sb, b))
    {
      BitInBitmap(sb, b);
      var data := buf.Bread(sb.bmapstart + b / 4096, -1);
      on := And(buf.data[data][b % 4096 / 8], BitMask(b)) != 0;
    }

    method BitmapSet(b: nat, used: bool)
      requires Ready() && b < sb.size
      modifies buf, buf.block, buf.data
      ensures Ready() && BitsBut(old(buf.disk), buf.disk, sb, b, used) && OnlyBitmap(old(buf.disk), buf.disk, sb)
    {
      BitInBitmap(sb, b);
      ghost var d := buf.disk;
      var block, byte := sb.bmapstart + b / 4096, b % 4096 / 8;
      var data := buf.Bread(block, -1);
      var bytes := buf.data[data];
      bytes := bytes[byte := SetInByte(bytes[byte], b % 8, used)];
      buf.Poke(data, block, bytes);
      buf.Bwrite(block, data);
      SetBitSpec(d, sb, b, used, bytes, buf.disk);
    }

    /** A free block, zeroed, found by scanning from the hint around the whole bitmap: 0 when the filesystem is
        read only or full. Where the scan starts decides which block is found, never whether one is. */
    method Balloc() returns (b: u32)
      requires Ready() && forall c :: 0 <= c < DataStart(sb) ==> Bit(buf.disk, sb, c)
      modifies buf, buf.block, buf.data, `hint
      ensures Ready()
      ensures b != 0 ==> Allocated(old(buf.disk), buf.disk, sb, b)
      ensures b == 0 <==> readOnly || Full(old(buf.disk), sb)
      ensures b == 0 ==> buf.disk == old(buf.disk) && hint == old(hint)
      ensures b != 0 ==> hint == b + 1 && FirstFrom(old(buf.disk), sb, old(hint), b)
    {
      if readOnly {
        return 0;
      }
      var found := FindFree();
      if found == -1 {
        return 0;
      }
      TakeFree(found);
      b := found;
    }

    /** The first free block from the hint on, going around. */
    method FindFree() returns (b: int)
      requires Ready()
      modifies buf, buf.block, buf.data
      ensures Ready() && buf.disk == old(buf.disk)
      ensures if b == -1 then Full(buf.disk, sb) else 0 <= b < sb.size && !Bit(buf.disk, sb, b)
      ensures b != -1 ==> FirstFrom(buf.disk, sb, hint, b)
    {
      ghost var d := buf.disk;
      var blockno := hint;
      ghost var start := if hint >= sb.size then 0 else hint;
      var scanned := 0;
      while scanned < sb.size
        invariant 0 <= scanned <= sb.size && Ready() && buf.disk == d
        invariant (blockno == hint && scanned == 0) || blockno == Rover(start, scanned, sb.size)
        invariant AllUsed(d, sb, start, scanned)
      {
        if blockno >= sb.size { blockno := 0; }
        var used := BitmapTest(blockno);
        if !used {
          FoundFirst(d, sb, hint, start, scanned, blockno);
          return blockno;
        }
        AllUsedNext(d, sb, start, scanned, blockno);
        blockno := blockno + 1;
        scanned := scanned + 1;
      }
      AllUsedEnd(d, sb, start);
      return -1;
    }

    method TakeFree(b: u32)
      requires Ready() && DataStart(sb) <= b < sb.size && !Bit(buf.disk, sb, b)
      modifies buf, buf.block, buf.data, `hint
      ensures Ready() && Allocated(old(buf.disk), buf.disk, sb, b) && hint == b + 1
    {
      BitmapSet(b, true);
      hint := b + 1;
      ghost var marked := buf.disk;
      var data := buf.Bread(b, -1);
      buf.Poke(data, b, Zeros(512));
      buf.Bwrite(b, data);
      BitDepends(marked, buf.disk, sb);
    }

    // ---- block mapping ----

    /** The disk block behind a file block, 0 for a hole or past the largest file. */
    method Bmap(inum: nat, bn: nat) returns (b: u32)
      requires Good() && 1 <= inum < sb.ninodes
      modifies buf, buf.block, buf.data
      ensures Good() && buf.disk == old(buf.disk)
      ensures b == if bn < MAXFILE then Ptr(buf.disk, Inode(buf.disk, sb, inum).addrs, DataPos(bn)) else 0
    {
      if bn < NDIRECT {
        b := InodeSlot(inum, bn);
        return;
      }
      if bn >= MAXFILE {
        return 0;
      }
      var j := bn - NDIRECT;
      if j < NINDIRECT {
        var ind := InodeSlot(inum, NDIRECT);
        if ind == 0 {
          return 0;
        }
        b := TableEntry(inum, Ind(j), ind, j);
        return;
      }
      j := j - NINDIRECT;
      var dind := InodeSlot(inum, NDIRECT + 1);
      if dind == 0 {
        return 0;
      }
      var outer, inner := j / NINDIRECT, j % NINDIRECT;
      var ind := TableEntry(inum, Outer(outer), dind, outer);
      if ind == 0 {
        return 0;
      }
      b := TableEntry(inum, Inner(outer, inner), ind, inner);
    }

    /** An entry of a table that is in use. */
    method TableEntry(ghost inum: nat, ghost p: Pos, table: nat, j: nat) returns (b: u32)
      requires Good() && 1 <= inum < sb.ninodes && ValidPos(p) && !p.Slot? && j == Index(p) < 128
      requires table == Ptr(buf.disk, Inode(buf.disk, sb, inum).addrs, Parent(p)) != 0
      modifies buf, buf.block, buf.data
      ensures Good() && buf.disk == old(buf.disk) && b == Ptr(buf.disk, Inode(buf.disk, sb, inum).addrs, p)
        && table < |buf.disk|
    {
      ghost var a := Inode(buf.disk, sb, inum).addrs;
      InUse(buf.disk, sb, owner, inum, Parent(p));
      PtrIsChild(buf.disk, a, p);
      b := ReadWord(table, 4 * j);
    }

    method BallocGood() returns (b: u32)
      requires Good()
      modifies buf, buf.block, buf.data, `hint
      ensures Ready() && (b != 0 ==> Allocated(old(buf.disk), buf.disk, sb, b))
      ensures b == 0 ==> buf.disk == old(buf.disk) && (readOnly || Full(buf.disk, sb))
    {
      MarkedMetadata(buf.disk, sb, owner);
      b := Balloc();
    }

    /** A fresh block in an empty slot of the inode; 0 when there is none. */
    method AttachSlot(inum: nat, k: nat, ghost n: nat) returns (b: u32)
      requires Good() && 1 <= inum < sb.ninodes && k < 13 && n < 16523 && Inode(buf.disk, sb, inum).addrs[k] == 0
      requires (k < 11 ==> DataPos(n) == Slot(k)) && Leads(Slot(k), n, n + 1)
      modifies buf, buf.block, buf.data, `hint, `owner
      ensures Good() && Grew(old(buf.disk), buf.disk, sb, inum, n) && Adds(old(owner), owner, inum, n, n + 1)
      ensures b != 0 ==> Inode(buf.disk, sb, inum).addrs == old(Inode(buf.disk, sb, inum).addrs)[k := b]
      ensures k >= 11 ==>
        Ptr(buf.disk, Inode(buf.disk, sb, inum).addrs,
          DataPos(n)) == old(Ptr(buf.disk, Inode(buf.disk, sb, inum).addrs, DataPos(n)))
      ensures b == 0 ==> buf.disk == old(buf.disk) && (readOnly || Full(buf.disk, sb))
    {
      ghost var d := buf.disk;
      b := BallocGood();
      if b == 0 {
        GrewNot(d, sb, inum, n);
        return;
      }
      ghost var d1 := buf.disk;
      InodeSet32(inum, 28 + 4 * k, b);
      SlotSteps(d, d1, buf.disk, sb, owner, inum, k, b, n);
      AddsOne(owner, b, inum, Slot(k), n);
      owner := owner[b as nat := Owner(inum, Slot(k))];
    }

    /** A fresh block in an empty entry of a table; the table is read again after the allocation, which may
        have evicted it. */
    method AttachEntry(inum: nat, ghost p: Pos, table: nat, j: nat, ghost n: nat) returns (b: u32)
      requires Good() && 1 <= inum < sb.ninodes && ValidPos(p) && !p.Slot? && j == Index(p) < 128 && n < 16523
        && (IsData(p) ==> p == DataPos(n))
      requires table == Ptr(buf.disk, Inode(buf.disk, sb, inum).addrs, Parent(p)) != 0
        && Ptr(buf.disk, Inode(buf.disk, sb, inum).addrs, p) == 0 && Leads(p, n, n + 1)
      modifies buf, buf.block, buf.data, `hint, `owner
      ensures Adds(old(owner), owner, inum, n, n + 1)
      ensures Good() && Grew(old(buf.disk), buf.disk, sb, inum, n)
        && Inode(buf.disk, sb, inum) == old(Inode(buf.disk, sb, inum))
      ensures b != 0 ==> Ptr(buf.disk, Inode(buf.disk, sb, inum).addrs, p) == b
      ensures !IsData(p) ==>
        Ptr(buf.disk, Inode(buf.disk, sb, inum).addrs,
          DataPos(n)) == old(Ptr(buf.disk, Inode(buf.disk, sb, inum).addrs, DataPos(n)))
      ensures b == 0 ==> buf.disk == old(buf.disk) && (readOnly || Full(buf.disk, sb))
    {
      ghost var d := buf.disk;
      InUse(d, sb, owner, inum, Parent(p));
      b := BallocGood();
      if b == 0 {
        GrewNot(d, sb, inum, n);
        return;
      }
      ghost var d1 := buf.disk;
      WriteWord(table, 4 * j, b);
      EntryAttached(d, d1, buf.disk, sb, owner, inum, p, table, b, n);
      AddsOne(owner, b, inum, p, n);
      owner := owner[b as nat := Owner(inum, p)];
    }

    /** The disk block behind a file block, allocated with its tables if need be. Afterwards Bmap finds it, no
        other mapping has changed and every file reads as before; 0 when the block is out of range, or the
        filesystem is read only or full. */
    method BmapAlloc(inum: nat, bn: int) returns (b: u32)
      requires Good() && 1 <= inum < sb.ninodes
      modifies buf, buf.block, buf.data, `hint, `owner
      ensures Good() && (0 <= bn < MAXFILE ==> Grew(old(buf.disk), buf.disk, sb, inum, bn))
      ensures 0 <= bn < MAXFILE ==> Adds(old(owner), owner, inum, bn, bn + 1)
      ensures !(0 <= bn < MAXFILE) ==> b == 0 && buf.disk == old(buf.disk) && owner == old(owner)
      ensures b != 0 ==> 0 <= bn < MAXFILE && Ptr(buf.disk, Inode(buf.disk, sb, inum).addrs, DataPos(bn)) == b
      ensures b == 0 && 0 <= bn < MAXFILE ==> readOnly || Full(buf.disk, sb)
    {
      if bn < 0 || bn >= MAXFILE {
        return 0;
      }
      b := Bmap(inum, bn);
      if b != 0 {
        GrewNot(buf.disk, sb, inum, bn);
        return;
      }
      if bn < NDIRECT {
        b := AttachSlot(inum, bn, bn);
        return;
      }
      var j := bn - NDIRECT;
      if j < NINDIRECT {
        b := AllocIndirect(inum, j, bn);
        return;
      }
      j := j - NINDIRECT;
      b := AllocDouble(inum, j / NINDIRECT, j % NINDIRECT, bn);
    }

    /** The table in a slot, made when missing. */
    method TableSlot(inum: nat, k: nat, ghost n: nat) returns (t: u32)
      requires Good() && 1 <= inum < sb.ninodes && 11 <= k < 13 && n < 16523 && Leads(Slot(k), n, n + 1)
      modifies buf, buf.block, buf.data, `hint, `owner
      ensures Adds(old(owner), owner, inum, n, n + 1)
      ensures Good() && Grew(old(buf.disk), buf.disk, sb, inum, n) && t == Inode(buf.disk, sb, inum).addrs[k]
      ensures Ptr(buf.disk, Inode(buf.disk, sb, inum).addrs,
          DataPos(n)) == old(Ptr(buf.disk, Inode(buf.disk, sb, inum).addrs, DataPos(n)))
      ensures t == 0 ==> readOnly || Full(buf.disk, sb)
    {
      t := InodeSlot(inum, k);
      if t == 0 {
        t := AttachSlot(inum, k, n);
      } else {
        GrewNot(buf.disk, sb, inum, n);
      }
    }

    method AllocIndirect(inum: nat, j: nat, ghost n: nat) returns (b: u32)
      requires Good() && 1 <= inum < sb.ninodes && j < 128 && n < 16523 && DataPos(n) == Ind(j) && n == 11 + j
      requires Ptr(buf.disk, Inode(buf.disk, sb, inum).addrs, Ind(j)) == 0
      modifies buf, buf.block, buf.data, `hint, `owner
      ensures Good() && Grew(old(buf.disk), buf.disk, sb, inum, n) && Adds(old(owner), owner, inum, n, n + 1)
      ensures b != 0 ==> Ptr(buf.disk, Inode(buf.disk, sb, inum).addrs, Ind(j)) == b
      ensures b == 0 ==> readOnly || Full(buf.disk, sb)
    {
      ghost var d := buf.disk;
      var ind := TableSlot(inum, NDIRECT, n);
      if ind == 0 {
        return 0;
      }
      ghost var d1 := buf.disk;
      b := AttachEntry(inum, Ind(j), ind, j, n);
      GrewTrans(d, d1, buf.disk, sb, inum, n);
    }

    method AllocDouble(inum: nat, outer: nat, inner: nat, ghost n: nat) returns (b: u32)
      requires Good() && 1 <= inum < sb.ninodes && outer < 128 && inner < 128 && n < 16523
        && DataPos(n) == Inner(outer, inner) && n == 139 + 128 * outer + inner
      requires Ptr(buf.disk, Inode(buf.disk, sb, inum).addrs, Inner(outer, inner)) == 0
      modifies buf, buf.block, buf.data, `hint, `owner
      ensures Good() && Grew(old(buf.disk), buf.disk, sb, inum, n) && Adds(old(owner), owner, inum, n, n + 1)
      ensures b != 0 ==> Ptr(buf.disk, Inode(buf.disk, sb, inum).addrs, Inner(outer, inner)) == b
      ensures b == 0 ==> readOnly || Full(buf.disk, sb)
    {
      ghost var d := buf.disk;
      var dind := TableSlot(inum, NDIRECT + 1, n);
      if dind == 0 {
        return 0;
      }
      ghost var d1 := buf.disk;
      b := AllocInner(inum, dind, outer, inner, n);
      GrewTrans(d, d1, buf.disk, sb, inum, n);
    }

    method AllocInner(inum: nat, dind: nat, outer: nat, inner: nat, ghost n: nat) returns (b: u32)
      requires Good() && 1 <= inum < sb.ninodes && outer < 128 && inner < 128 && n < 16523
        && DataPos(n) == Inner(outer, inner) && n == 139 + 128 * outer + inner
      requires dind == Inode(buf.disk, sb, inum).addrs[12] != 0
        && Ptr(buf.disk, Inode(buf.disk, sb, inum).addrs, Inner(outer, inner)) == 0
      modifies buf, buf.block, buf.data, `hint, `owner
      ensures Good() && Grew(old(buf.disk), buf.disk, sb, inum, n) && Adds(old(owner), owner, inum, n, n + 1)
      ensures b != 0 ==> Ptr(buf.disk, Inode(buf.disk, sb, inum).addrs, Inner(outer, inner)) == b
      ensures b == 0 ==> readOnly || Full(buf.disk, sb)
    {
      ghost var d := buf.disk;
      var ind := TableEntry(inum, Outer(outer), dind, outer);
      if ind == 0 {
        ind := AttachEntry(inum, Outer(outer), dind, outer, n);
        if ind == 0 {
          return 0;
        }
      } else {
        GrewNot(d, sb, inum, n);
      }
      ghost var d1 := buf.disk;
      b := AttachEntry(inum, Inner(outer, inner), ind, inner, n);
      GrewTrans(d, d1, buf.disk, sb, inum, n);
    }

    // ---- files ----

    ghost predicate Kept()
      reads this, buf, buf.block, buf.data
    {
      buf.Clean() && Neat(buf.disk, sb, owner)
    }

    method InodeSize(inum: nat) returns (v: u32)
      requires Ready() && inum < sb.ninodes
      modifies buf, buf.block, buf.data
      ensures Ready() && buf.disk == old(buf.disk) && v == Inode(buf.disk, sb, inum).size
    {
      InodeInTable(sb, inum);
      v := ReadWord(InodeBlock(sb, inum), InodeOff(inum) + 12);
    }

    method InodeTouch(inum: nat, atime: bool, mtime: bool, ctime: bool, now: u32)
      requires Ready() && inum < sb.ninodes
      modifies buf, buf.block, buf.data
      ensures Ready() && OutsideInodes(old(buf.disk), buf.disk, sb)
      ensures Stored(buf.disk, sb) == Hand(old(buf.disk), sb, inum,
          Touched(Inode(old(buf.disk), sb, inum), atime, mtime, ctime, now))
    {
      InodeInTable(sb, inum);
      ghost var d := buf.disk;
      var b := InodeBlock(sb, inum);
      var addr := buf.Bread(b, -1);
      buf.Poke(addr, b, TouchBytes(buf.data[addr], InodeOff(inum), atime, mtime, ctime, now));
      var again := buf.Bread(b, addr);
      buf.Bwrite(b, again);
      TouchWritten(d, sb, inum, atime, mtime, ctime, now, buf.disk[b]);
    }

    /** The file's bytes from off on, at most n of them. A negative n, or one that takes the end past the
        largest int, is returned as it is, with nothing read. */
    method Readi(inum: nat, off: int, n: int, now: u32) returns (r: int, out: seq<u8>)
      requires Kept() && 1 <= inum < sb.ninodes && Int32(off) && Int32(n)
      modifies buf, buf.block, buf.data
      ensures Kept() && forall j :: 1 <= j < sb.ninodes ==> FileOf(buf.disk, sb, j) == old(FileOf(buf.disk, sb, j))
      ensures var s := old(FileOf(buf.disk, sb, inum));
        if off < 0 || off > |s| then r == 0 && out == []
        else if n < 0 || !Int32(off + n) then r == n && out == []
        else r == |out| && out == s[off..if off + n < |s| then off + n else |s|]
      ensures if out == [] then buf.disk == old(buf.disk)
        else Accessed(old(buf.disk), buf.disk, sb, inum, now)
    {
      NeatIsSound(buf.disk, sb, owner);
      var sz := InodeSize(inum);
      if off < 0 || off > sz {
        return 0, [];
      }
      var end := Wrap(off + n);
      if end > sz { end := sz; }
      EndOfRead(off, n, sz, end);
      out := [];
      if end > off {
        out := ReadTouched(inum, off, end, now);
      }
      r := Wrap(end - off);
    }

    method ReadTouched(inum: nat, off: nat, end: nat, now: u32) returns (out: seq<u8>)
      requires Kept() && 1 <= inum < sb.ninodes && off < end <= Inode(buf.disk, sb, inum).size
      modifies buf, buf.block, buf.data
      ensures Kept() && forall j :: 1 <= j < sb.ninodes ==> FileOf(buf.disk, sb, j) == old(FileOf(buf.disk, sb, j))
      ensures end <= |old(FileOf(buf.disk, sb, inum))| && out == old(FileOf(buf.disk, sb, inum))[off..end]
      ensures Accessed(old(buf.disk), buf.disk, sb, inum, now)
    {
      NeatIsSound(buf.disk, sb, owner);
      out := ReadRange(inum, off, end);
      ghost var d := buf.disk;
      InodeTouch(inum, true, false, false, now);
      TouchKeeps(d, buf.disk, sb, owner, inum, now);
    }

    method ReadRange(inum: nat, off: nat, end: nat) returns (out: seq<u8>)
      requires Good() && 1 <= inum < sb.ninodes && off <= end <= Inode(buf.disk, sb, inum).size <= MAXBYTES
      modifies buf, buf.block, buf.data
      ensures Good() && buf.disk == old(buf.disk) && out == Content(buf.disk, Inode(buf.disk, sb, inum))[off..end]
    {
      ghost var d, din := buf.disk, Inode(buf.disk, sb, inum);
      out := [];
      var pos := off;
      while pos < end
        invariant off <= pos <= end && |out| == pos - off && Good() && buf.disk == d
        invariant forall x :: 0 <= x < |out| ==> out[x] == Byte(d, din.addrs, off + x)
      {
        var bytes := ReadChunk(inum, pos, end - pos);
        ghost var before := out;
        out := out + bytes;
        RowGrows(d, din.addrs, off, before, bytes);
        pos := pos + |bytes|;
      }
      RowIsContent(d, din, off, out);
    }

    /** The part of a read that falls in one block. */
    method ReadChunk(inum: nat, pos: nat, left: nat) returns (bytes: seq<u8>)
      requires Good() && 1 <= inum < sb.ninodes && 0 < left && pos + left <= MAXBYTES
      modifies buf, buf.block, buf.data
      ensures Good() && buf.disk == old(buf.disk) && 0 < |bytes| <= left
      ensures forall x :: 0 <= x < |bytes| ==> bytes[x] == Byte(buf.disk, Inode(buf.disk, sb, inum).addrs, pos + x)
    {
      ghost var d, a := buf.disk, Inode(buf.disk, sb, inum).addrs;
      var within := pos % 512;
      var take := if 512 - within > left then left else 512 - within;
      var blk := Bmap(inum, pos / 512);
      InUse(d, sb, owner, inum, DataPos(pos / 512));
      if blk != 0 {
        var data := buf.Bread(blk, -1);
        bytes := buf.data[data][within..within + take];
      } else {
        bytes := Zeros(take);
      }
      ChunkBytes(d, a, pos, within, bytes, blk);
    }

    /** Writes n bytes at off and returns how much of them: all, or as much as the disk had room for. The file is
        then its old bytes, zero-extended, with that much laid over them, exactly when the end does not pass
        the largest int; when it does, the write is said to be done and no file has changed. Every other file
        is untouched. A negative result names the reason nothing was written, and no file has changed. */
    method Writei(inum: nat, off: int, n: int, data: seq<u8>, now: u32) returns (r: int)
      requires Kept() && 1 <= inum < sb.ninodes && Int32(off) && Int32(n) && (n >= 0 ==> |data| == n)
      modifies buf, buf.block, buf.data, `hint, `owner
      ensures Kept()
      ensures r >= 0 ==> r <= n && off >= 0 && |data| == n
      ensures r >= 0 ==>
        (FileOf(buf.disk, sb, inum) == Overlaid(old(FileOf(buf.disk, sb, inum)), off, data[..r]) <==> Int32(off + n))
      ensures !readOnly && off >= 0 && n >= 0 && !Int32(off + n) ==>
        r == n && FileOf(buf.disk, sb, inum) == old(FileOf(buf.disk, sb, inum))
      ensures r >= 0 ==> forall j :: 1 <= j < sb.ninodes && j != inum ==>
        FileOf(buf.disk, sb, j) == old(FileOf(buf.disk, sb, j)) && Inode(buf.disk, sb, j) == old(Inode(buf.disk, sb, j))
      ensures r >= 0 ==> Finished(old(Inode(buf.disk, sb, inum)), Inode(buf.disk, sb, inum),
          if Int32(off + n) then off + r else 0, now)
      ensures off >= 0 && n >= 0 && Int32(off + n) ==> Adds(old(owner), owner, inum, off / 512, BlocksOf(off + n))
      ensures off >= 0 && n >= 0 && !Int32(off + n) ==> owner == old(owner)
      ensures 0 <= r < n ==> r > 0 && Full(buf.disk, sb)
      ensures r < 0 ==> r == EROFS || r == EINVAL || r == EFBIG || r == ENOSPC
      ensures r < 0 ==> forall j :: 1 <= j < sb.ninodes ==> FileOf(buf.disk, sb, j) == old(FileOf(buf.disk, sb, j))
      ensures r in {EROFS, EINVAL, EFBIG} ==> buf.disk == old(buf.disk) && owner == old(owner)
      ensures r == ENOSPC ==>
        off >= 0 && n > 0 && Wrote(old(buf.disk), buf.disk, sb, inum, off, data, 0) && Full(buf.disk, sb)
      ensures r == EROFS <==> readOnly
      ensures !readOnly ==> (r == EINVAL <==> off < 0 || n < 0)
      ensures !readOnly ==> (r == EFBIG <==> off >= 0 && n >= 0 && MAXBYTES < off + n && Int32(off + n))
    {
      if readOnly {
        return EROFS;
      }
      if off < 0 || n < 0 {
        return EINVAL;
      }
      var end := Wrap(off + n);
      EndOfWrite(off, n, end);
      if end > MAXFILE * 512 {
        return EFBIG;
      }
      if end < off {
        NeverMind(inum, end, now);
        TooShort(buf.disk, sb, inum, off, data);
        assert data[..n] == data;
        return n;
      }
      r := WriteRange(inum, off, data, now);
    }

    /** A byte written at the largest offset a seek accepts is reported written and is nowhere. */
    method WritePastEnd(inum: nat, b: u8, now: u32) returns (r: int)
      requires Kept() && 1 <= inum < sb.ninodes && !readOnly
      modifies buf, buf.block, buf.data, `hint, `owner
      ensures Kept() && r == 1
      ensures forall j :: 1 <= j < sb.ninodes ==> FileOf(buf.disk, sb, j) == old(FileOf(buf.disk, sb, j))
      ensures FileOf(buf.disk, sb, inum) != Overlaid(old(FileOf(buf.disk, sb, inum)), 0x7fff_ffff, [b])
    {
      r := Writei(inum, 0x7fff_ffff, 1, [b], now);
      assert [b][..1] == [b];
    }

    /** An end before the start: the loop is not entered, the size stays, and only the times are set. */
    method NeverMind(inum: nat, end: int, now: u32)
      requires Kept() && 1 <= inum < sb.ninodes && end < 0
      modifies buf, buf.block, buf.data
      ensures Kept() && FileOf(buf.disk, sb, inum) == old(FileOf(buf.disk, sb, inum))
      ensures Finished(old(Inode(buf.disk, sb, inum)), Inode(buf.disk, sb, inum), 0, now)
      ensures forall j :: 1 <= j < sb.ninodes && j != inum ==>
        FileOf(buf.disk, sb, j) == old(FileOf(buf.disk, sb, j)) && Inode(buf.disk, sb, j) == old(Inode(buf.disk, sb, j))
    {
      ghost var d, own := buf.disk, owner;
      NeatIsSound(d, sb, own);
      WroteNothing(d, sb, inum, 0, []);
      FinishWrite(inum, 0, [], end, now, d, own);
      assert Overlaid(FileOf(d, sb, inum), 0, []) == FileOf(d, sb, inum);
    }

    method WriteRange(inum: nat, off: nat, data: seq<u8>, now: u32) returns (r: int)
      requires Kept() && 1 <= inum < sb.ninodes && off + |data| <= MAXBYTES && !readOnly
      modifies buf, buf.block, buf.data, `hint, `owner
      ensures Kept() && (r == ENOSPC || 0 <= r <= |data|) && (0 <= r < |data| ==> r > 0 && Full(buf.disk, sb))
      ensures Adds(old(owner), owner, inum, off / 512, BlocksOf(off + |data|))
      ensures r >= 0 ==> Finished(old(Inode(buf.disk, sb, inum)), Inode(buf.disk, sb, inum), off + r, now)
      ensures r >= 0 ==> FileOf(buf.disk, sb, inum) == Overlaid(old(FileOf(buf.disk, sb, inum)), off, data[..r])
      ensures r >= 0 ==> forall j :: 1 <= j < sb.ninodes && j != inum ==>
        FileOf(buf.disk, sb, j) == old(FileOf(buf.disk, sb, j)) && Inode(buf.disk, sb, j) == old(Inode(buf.disk, sb, j))
      ensures r < 0 ==> forall j :: 1 <= j < sb.ninodes ==> FileOf(buf.disk, sb, j) == old(FileOf(buf.disk, sb, j))
      ensures r < 0 ==>
        data != [] && Wrote(old(buf.disk), buf.disk, sb, inum, off, data, 0) && Full(buf.disk, sb)
    {
      ghost var d, own := buf.disk, owner;
      NeatIsSound(d, sb, own);
      var done := WriteBlocks(inum, off, data);
      if done == 0 && |data| > 0 {
        NothingWritten(d, buf.disk, sb, own, owner, inum, off, data);
        return ENOSPC;
      }
      FinishWrite(inum, off, data[..done], off + done, now, d, own);
      r := done;
    }

    /** Writes block by block until the data or the disk is at an end. */
    method WriteBlocks(inum: nat, off: nat, data: seq<u8>) returns (done: nat)
      requires Good() && 1 <= inum < sb.ninodes && off + |data| <= MAXBYTES
      modifies buf, buf.block, buf.data, `hint, `owner
      ensures Good() && done <= |data| && Wrote(old(buf.disk), buf.disk, sb, inum, off, data, done)
      ensures Adds(old(owner), owner, inum, off / 512, BlocksOf(off + |data|))
      ensures done < |data| ==> readOnly || Full(buf.disk, sb)
    {
      ghost var d := buf.disk;
      WroteNothing(d, sb, inum, off, data);
      done := 0;
      while done < |data|
        invariant 0 <= done <= |data| && Good() && Wrote(d, buf.disk, sb, inum, off, data, done)
        invariant Adds(old(owner), owner, inum, off / 512, BlocksOf(off + |data|))
      {
        var pos := off + done;
        var n, within := pos / 512, pos % 512;
        ghost var d1, own := buf.disk, owner;
        BlockOf(off, done, |data|);
        var blk := BmapAlloc(inum, n);
        AddsThen(old(owner), own, owner, inum, off / 512, BlocksOf(off + |data|), n, n + 1);
        WroteGrew(d, d1, buf.disk, sb, inum, off, data, done, n);
        if blk == 0 {
          return;
        }
        var take := if 512 - within > |data| - done then |data| - done else 512 - within;
        WriteChunk(inum, off, data, done, take, n, within, blk, d);
        done := done + take;
      }
    }

    method WriteChunk(ghost inum: nat, off: nat, data: seq<u8>, src: nat, take: nat, ghost n: nat, within: nat,
                      blk: nat, ghost d: Disk)
      requires Good() && 1 <= inum < sb.ninodes && off + |data| <= MAXBYTES && 0 < take && src + take <= |data|
        && within + take <= 512
      requires n == (off + src) / 512 && within == (off + src) % 512 && n < 16523
      requires blk == Ptr(buf.disk, Inode(buf.disk, sb, inum).addrs, DataPos(n)) != 0
        && Wrote(d, buf.disk, sb, inum, off, data, src)
      modifies buf, buf.block, buf.data
      ensures Good() && Wrote(d, buf.disk, sb, inum, off, data, src + take)
    {
      ghost var d1 := buf.disk;
      InUse(d1, sb, owner, inum, DataPos(n));
      var slot := buf.Bread(blk, -1);
      var bytes := buf.data[slot];
      bytes := bytes[..within] + data[src..src + take] + bytes[within + take..];
      buf.Poke(slot, blk, bytes);
      buf.Bwrite(blk, slot);
      WroteChunk(d, d1, buf.disk, sb, owner, inum, off, data, src, take, n, blk, within, bytes);
    }

    /** The inode's new size and times. */
    method FinishWrite(inum: nat, ghost off: nat, ghost data: seq<u8>, end: int, now: u32, ghost d: Disk,
                       ghost own: map<nat, Owner>)
      requires Good() && 1 <= inum < sb.ninodes && off + |data| <= MAXBYTES && Neat(d, sb, own)
        && (end == off + |data| || (end < 0 && off + |data| == 0))
        && Wrote(d, buf.disk, sb, inum, off, data, |data|)
      modifies buf, buf.block, buf.data
      ensures Kept() && FileOf(buf.disk, sb, inum) == Overlaid(FileOf(d, sb, inum), off, data)
      ensures Finished(Inode(d, sb, inum), Inode(buf.disk, sb, inum), end, now)
      ensures Full(old(buf.disk), sb) ==> Full(buf.disk, sb)
      ensures forall j :: 1 <= j < sb.ninodes && j != inum ==>
        FileOf(buf.disk, sb, j) == FileOf(d, sb, j) && Inode(buf.disk, sb, j) == Inode(d, sb, j)
    {
      ghost var d1 := buf.disk;
      InodeKept(d, d1, sb, inum, off, data);
      FinishInode(inum, end, now);
      WriteDone(d, d1, buf.disk, sb, own, owner, inum, off, data, Inode(buf.disk, sb, inum));
      StillFull(d1, buf.disk, sb);
    }

    method FinishInode(inum: nat, end: int, now: u32)
      requires Ready() && 1 <= inum < sb.ninodes && end <= MAXBYTES
      modifies buf, buf.block, buf.data
      ensures Ready() && OutsideInodes(old(buf.disk), buf.disk, sb)
      ensures Stored(buf.disk, sb) == Hand(old(buf.disk), sb, inum, Inode(buf.disk, sb, inum))
      ensures Finished(Inode(old(buf.disk), sb, inum), Inode(buf.disk, sb, inum), end, now)
        && Inode(buf.disk, sb, inum).addrs == Inode(old(buf.disk), sb, inum).addrs
    {
      ghost var d1 := buf.disk;
      var size := InodeSize(inum);
      GrowTo(inum, end, size);
      ghost var d2 := buf.disk;
      InodeTouch(inum, false, true, true, now);
      ghost var din := Touched(Inode(d2, sb, inum), false, true, true, now);
      StoredTwice(d1, d2, buf.disk, sb, inum, Inode(d2, sb, inum), din);
      assert Stored(buf.disk, sb)[inum] == Inode(buf.disk, sb, inum);
    }

    method GrowTo(inum: nat, end: int, size: u32)
      requires Ready() && inum < sb.ninodes && size == Inode(buf.disk, sb, inum).size && end <= MAXBYTES
      modifies buf, buf.block, buf.data
      ensures Ready() && OutsideInodes(old(buf.disk), buf.disk, sb)
      ensures var din := Inode(old(buf.disk), sb, inum);
        Inode(buf.disk, sb, inum) == din.(size := if end > size then end else size)
        && Stored(buf.disk, sb) == Hand(old(buf.disk), sb, inum, Inode(buf.disk, sb, inum))
    {
      ghost var d := buf.disk;
      if end > size {
        InodeSet32(inum, 12, end);
        InodeInTable(sb, inum);
        SizeWritten(d, sb, inum, end, buf.disk[InodeBlock(sb, inum)]);
        assert Stored(buf.disk, sb)[inum] == Inode(buf.disk, sb, inum);
      } else {
        HandOfStored(d, sb, inum);
      }
    }
  }

  /** Only the access time of one inode has changed. */
  ghost predicate Accessed(d: Disk, d': Disk, sb: Superblock, i: nat, now: u32) {
    && Geometry(sb) && Sized(d, sb) && Sized(d', sb) && i < sb.ninodes && OutsideInodes(d, d', sb)
    && Stored(d', sb) == Hand(d, sb, i, Inode(d, sb, i).(atime := now))
  }

  /** What a write leaves of an inode: block pointers, a size that reaches its end, and the times of the write. */
  predicate Finished(din: Dinode, din': Dinode, end: int, now: u32) {
    && din' == din.(addrs := din'.addrs, size := din'.size, mtime := now, ctime := now)
    && din'.size as int == if end > din.size then end else din.size
  }

  /** Block c is among the first n met from start, going around. */
  predicate Visited(start: nat, n: nat, size: nat, c: nat) {
    start <= c < start + n || start <= c + size < start + n
  }

  /** The rover after n steps; at the end of the disk it has not yet gone around. */
  function Rover(start: nat, n: nat, size: nat): int {
    if start + n <= size then start + n else start + n - size
  }

  ghost predicate AllUsed(d: Disk, sb: Superblock, start: nat, n: nat)
    requires Geometry(sb) && Sized(d, sb)
  {
    forall c {:trigger Bit(d, sb, c)} :: 0 <= c < sb.size && Visited(start, n, sb.size, c) ==> Bit(d, sb, c)
  }

  /** Block b is the first free one from the hint on, going around; a hint past the end counts as none. */
  ghost predicate FirstFrom(d: Disk, sb: Superblock, hint: nat, b: nat) {
    && Geometry(sb) && Sized(d, sb) && b < sb.size
    && var start := if hint >= sb.size then 0 else hint;
      forall c {:trigger Bit(d, sb, c)} :: 0 <= c < sb.size && Passed(start, b, c) ==> Bit(d, sb, c)
  }

  /** Going around from start, c comes before b. */
  predicate Passed(start: nat, b: nat, c: nat) { if start <= b then start <= c < b else start <= c || c < b }

  lemma FoundFirst(d: Disk, sb: Superblock, hint: nat, start: nat, n: nat, b: nat)
    requires Geometry(sb) && Sized(d, sb) && start == (if hint >= sb.size then 0 else hint) && n < sb.size
      && b < sb.size
    requires AllUsed(d, sb, start, n) && (b == start + n || b == start + n - sb.size)
    ensures FirstFrom(d, sb, hint, b)
  {
    forall c | 0 <= c < sb.size && Passed(start, b, c) ensures Bit(d, sb, c) {
      assert Visited(start, n, sb.size, c);
    }
  }

  lemma AllUsedNext(d: Disk, sb: Superblock, start: nat, n: nat, x: nat)
    requires Geometry(sb) && Sized(d, sb) && start < sb.size && n < sb.size && AllUsed(d, sb, start, n)
    requires x < sb.size && (x == start + n || x == start + n - sb.size) && Bit(d, sb, x)
    ensures AllUsed(d, sb, start, n + 1)
  {
  }

  lemma AllUsedEnd(d: Disk, sb: Superblock, start: nat)
    requires Geometry(sb) && Sized(d, sb) && start < sb.size && AllUsed(d, sb, start, sb.size)
    ensures Full(d, sb)
  {
    forall c | 0 <= c < sb.size ensures Bit(d, sb, c) {
      assert Visited(start, sb.size, sb.size, c);
    }
  }

  lemma PointerOf(d: Disk, d': Disk, sb: Superblock, i: nat, din: Dinode, k: nat, b: u32)
    requires Geometry(sb) && Sized(d, sb) && Sized(d', sb) && 1 <= i < sb.ninodes && k < 13 && |din.addrs| == 13
    requires Stored(d', sb) == Hand(d, sb, i, din.(addrs := din.addrs[k := b]))
    ensures Inode(d', sb, i).addrs == din.addrs[k := b]
  {
    assert Stored(d', sb)[i] == din.(addrs := din.addrs[k := b]);
  }

  lemma ChunkBytes(d: Disk, a: seq<u32>, pos: nat, within: nat, bytes: seq<u8>, blk: nat)
    requires |a| == 13 && within == pos % 512 && within + |bytes| <= 512 && 0 < |bytes| && pos + |bytes| <= 8459776
    requires blk == Ptr(d, a, DataPos(pos / 512)) && (blk != 0 ==> blk < |d| && |d[blk]| == 512)
    requires forall x :: 0 <= x < |bytes| ==> bytes[x] == if blk != 0 then d[blk][within + x] else 0
    ensures forall x :: 0 <= x < |bytes| ==> bytes[x] == Byte(d, a, pos + x)
  {
    forall x | 0 <= x < |bytes| ensures bytes[x] == Byte(d, a, pos + x) {
      SameBlock(pos, x);
    }
  }

  /** Where a read ends: at the end of the file at the latest; before its start if the sum wraps or n is
      negative. */
  lemma EndOfRead(off: nat, n: int, sz: nat, end: int)
    requires Int32(off) && Int32(n) && off <= sz <= 8459776 && end == if Wrap(off + n) > sz then sz else Wrap(off + n)
    ensures n < 0 || !Int32(off + n) ==> end <= off && Wrap(end - off) == n
    ensures n >= 0 && Int32(off + n) ==>
      end == (if off + n < sz then off + n else sz) && off <= end && Wrap(end - off) == end - off
  {
  }

  lemma EndOfWrite(off: nat, n: nat, end: int)
    requires Int32(off) && Int32(n) && end == Wrap(off + n)
    ensures if Int32(off + n) then end == off + n else end < 0
  {
  }

  /** No file reaches the largest int. */
  lemma TooShort(d: Disk, sb: Superblock, i: nat, off: nat, data: seq<u8>)
    requires Geometry(sb) && Sized(d, sb) && i < sb.ninodes && off + |data| > 8459776
    ensures forall s: seq<u8> {:trigger Overlaid(s, off, data)} :: FileOf(d, sb, i) != Overlaid(s, off, data)
  {
    forall s: seq<u8> ensures FileOf(d, sb, i) != Overlaid(s, off, data) {
      assert |Overlaid(s, off, data)| > 8459776 >= |FileOf(d, sb, i)|;
    }
  }

  /** Setting times changes no file. */
  lemma TouchKeeps(d: Disk, d': Disk, sb: Superblock, own: map<nat, Owner>, i: nat, now: u32)
    requires Neat(d, sb, own) && 1 <= i < sb.ninodes && Sized(d', sb) && OutsideInodes(d, d', sb)
    requires Stored(d', sb) == Hand(d, sb, i, Touched(Inode(d, sb, i), true, false, false, now))
    ensures Neat(d', sb, own) && forall j :: 1 <= j < sb.ninodes ==> FileOf(d', sb, j) == FileOf(d, sb, j)
  {
    NeatIsSound(d, sb, own);
    WroteNothing(d, sb, i, 0, []);
    WriteDone(d, d, d', sb, own, own, i, 0, [], Touched(Inode(d, sb, i), true, false, false, now));
    assert Overlaid(FileOf(d, sb, i), 0, []) == FileOf(d, sb, i);
  }

  /** Writing blocks leaves the size to be set afterwards. */
  lemma StillFull(d: Disk, d': Disk, sb: Superblock)
    requires Geometry(sb) && Sized(d, sb) && Sized(d', sb) && OutsideInodes(d, d', sb)
    ensures Full(d, sb) ==> Full(d', sb)
  {
    BitDepends(d, d', sb);
  }

  lemma InodeKept(d: Disk, d1: Disk, sb: Superblock, i: nat, off: nat, data: seq<u8>)
    requires Wrote(d, d1, sb, i, off, data, |data|) && 1 <= i < sb.ninodes
    ensures Inode(d1, sb, i) == Inode(d, sb, i).(addrs := Inode(d1, sb, i).addrs)
  {
    ShowWrote(d, d1, sb, i, off, data, |data|);
    assert Stored(d, sb)[i] == Inode(d, sb, i) && Stored(d1, sb)[i] == Inode(d1, sb, i);
  }

  /** Storing an inode twice is storing it once. */
  lemma StoredTwice(d: Disk, d1: Disk, d2: Disk, sb: Superblock, i: nat, din1: Dinode, din2: Dinode)
    requires Geometry(sb) && Sized(d, sb) && Sized(d1, sb) && Sized(d2, sb) && 1 <= i < sb.ninodes
      && |din1.addrs| == |din2.addrs| == 13
    requires Stored(d1, sb) == Hand(d, sb, i, din1) && Stored(d2, sb) == Hand(d1, sb, i, din2)
    requires OutsideInodes(d, d1, sb) && OutsideInodes(d1, d2, sb)
    ensures Stored(d2, sb) == Hand(d, sb, i, din2) && OutsideInodes(d, d2, sb)
  {
    var t1, t2 := Stored(d1, sb), Stored(d2, sb);
    forall j | 0 <= j < sb.ninodes && j != i ensures Inode(d1, sb, j) == Inode(d, sb, j) {
      assert t1[j] == Hand(d, sb, i, din1)[j];
    }
  }
}
