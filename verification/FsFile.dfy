/** Files as byte sequences, and what allocating a block and storing an inode leave unchanged. */
module FsFile {
  import opened Bits
  import opened Bytes
  import opened Words
  import opened FsLayout
  import opened FsTree

  /** The inode table with inode i replaced by its copy in hand. */
  function Hand(d: Disk, sb: Superblock, i: nat, din: Dinode): (t: Table)
    requires Geometry(sb) && Sized(d, sb) && |din.addrs| == 13
    ensures |t| == sb.ninodes && Shaped(t)
    ensures i < sb.ninodes ==> t[i] == din
  {
    seq(sb.ninodes, j requires 0 <= j < sb.ninodes => if j == i then din else Inode(d, sb, j))
  }

  /** The inode table as stored. */
  function Stored(d: Disk, sb: Superblock): (t: Table)
    requires Geometry(sb) && Sized(d, sb)
    ensures |t| == sb.ninodes && Shaped(t)
  {
    seq(sb.ninodes, j requires 0 <= j < sb.ninodes => Inode(d, sb, j))
  }

  ghost predicate SameInodes(d: Disk, d': Disk, sb: Superblock) {
    |d'| == |d| && forall x :: 2 <= x < sb.bmapstart && x < |d| ==> d'[x] == d[x]
  }

  lemma HandSame(d: Disk, d': Disk, sb: Superblock, i: nat, din: Dinode, din': Dinode)
    requires Geometry(sb) && Sized(d, sb) && Sized(d', sb) && |din.addrs| == 13 && |din'.addrs| == 13
    requires SameInodes(d, d', sb) && i < sb.ninodes
    ensures Hand(d', sb, i, din') == Hand(d, sb, i, din)[i := din']
  {
    InodeDepends(d, d', sb);
  }

  lemma HandOfStored(d: Disk, sb: Superblock, i: nat)
    requires Geometry(sb) && Sized(d, sb) && i < sb.ninodes
    ensures Hand(d, sb, i, Inode(d, sb, i)) == Stored(d, sb)
  {
  }

  // ---- allocation ----

  /** Bit b is now on; nothing else in the bitmap changed. */
  ghost predicate BitsBut(d: Disk, d': Disk, sb: Superblock, b: nat, on: bool)
    requires Geometry(sb) && Sized(d, sb) && Sized(d', sb)
  {
    forall c {:trigger Bit(d', sb, c)} :: 0 <= c < sb.size ==>
      (Bit(d', sb, c) <==> if c == b then on else Bit(d, sb, c))
  }

  ghost predicate OutsideBitmap(d: Disk, d': Disk, sb: Superblock, b: nat) {
    |d'| == |d| && forall x :: 0 <= x < |d| && x != b && !(sb.bmapstart <= x < DataStart(sb)) ==> d'[x] == d[x]
  }

  /** What balloc leaves. */
  ghost predicate Allocated(d: Disk, d': Disk, sb: Superblock, b: nat) {
    && Geometry(sb) && Sized(d, sb) && Sized(d', sb) && DataStart(sb) <= b < sb.size
    && !Bit(d, sb, b) && BitsBut(d, d', sb, b, true) && OutsideBitmap(d, d', sb, b) && ZeroBlock(d', b)
  }

  lemma AllocatedKeeps(d: Disk, d': Disk, sb: Superblock, t: Table, own: map<nat, Owner>, b: nat)
    requires Inv(d, sb, t, own) && Allocated(d, d', sb, b)
    ensures Keeps(d, d', own) && b !in own && SameInodes(d, d', sb)
  {
    forall c | 0 <= c < |d| && c in own ensures d'[c] == d[c] {
      OwnedBlock(d, t, own, DataStart(sb), sb.size, c);
      assert Bit(d, sb, c);
    }
  }

  lemma MetadataMarked(d: Disk, sb: Superblock, t: Table, own: map<nat, Owner>)
    requires Inv(d, sb, t, own)
    ensures forall c :: 0 <= c < DataStart(sb) ==> Bit(d, sb, c)
  {
  }

  /** A table read before an allocation is still what the disk holds after it. */
  lemma StillRead(d: Disk, d': Disk, sb: Superblock, t: Table, own: map<nat, Owner>, i: nat, p: Pos, b: nat)
    requires Inv(d, sb, t, own) && Allocated(d, d', sb, b) && 1 <= i < |t| && ValidPos(p)
    requires Ptr(d, t[i].addrs, p) != 0
    ensures Ptr(d, t[i].addrs, p) < |d| && d'[Ptr(d, t[i].addrs, p)] == d[Ptr(d, t[i].addrs, p)]
  {
    OwnedPtr(d, t, own, DataStart(sb), sb.size, i, p);
    AllocatedKeeps(d, d', sb, t, own, b);
  }

  lemma AllocatedMarks(d: Disk, d': Disk, sb: Superblock, own: map<nat, Owner>, b: nat, w: Owner)
    requires Geometry(sb) && Sized(d, sb) && Marked(d, sb, own) && Allocated(d, d', sb, b)
    ensures Marked(d', sb, own[b := w])
  {
  }

  /** A fresh block in an empty slot of the inode in hand. */
  lemma SlotFilled(d: Disk, d': Disk, sb: Superblock, own: map<nat, Owner>, i: nat, din: Dinode, din': Dinode, k: nat,
                   b: u32)
    requires Geometry(sb) && Sized(d, sb) && |din.addrs| == 13 && 1 <= i < sb.ninodes && k < 13
    requires Inv(d, sb, Hand(d, sb, i, din), own) && Allocated(d, d', sb, b)
    requires din.addrs[k] == 0 && din' == din.(addrs := din.addrs[k := b])
    ensures Inv(d', sb, Hand(d', sb, i, din'), own[b := Owner(i, Slot(k))])
    ensures SameInodes(d, d', sb) && SameBytes(d, Hand(d, sb, i, din), d', Hand(d', sb, i, din'))
    ensures Moved(d, Hand(d, sb, i, din), d', Hand(d', sb, i, din'), i, Slot(k), b)
  {
    var t, t' := Hand(d, sb, i, din), Hand(d', sb, i, din');
    AllocatedKeeps(d, d', sb, t, own, b);
    HandSame(d, d', sb, i, din, din');
    forall i', p' | 1 <= i' < |t| && ValidPos(p')
      ensures Ptr(d', t'[i'].addrs, p') == if i' == i && p' == Slot(k) then b else Ptr(d, t[i'].addrs, p')
    {
      SlotMoved(d, t, d', t', own, DataStart(sb), sb.size, i, k, b, i', p');
    }
    Fill(d, t, d', t', sb, own, i, Slot(k), b);
    AllocatedMarks(d, d', sb, own, b, Owner(i, Slot(k)));
  }

  lemma Fill(d: Disk, t: Table, d': Disk, t': Table, sb: Superblock, own: map<nat, Owner>, i: nat, p: Pos, b: nat)
    requires Shaped(t) && Shaped(t') && |t| == |t'| && Owned(d, t, own, DataStart(sb), sb.size) && |d'| == |d|
    requires Moved(d, t, d', t', i, p, b) && 1 <= i < |t| && ValidPos(p) && Ptr(d, t[i].addrs, p) == 0
    requires b !in own && 0 < DataStart(sb) <= b < sb.size && ZeroBlock(d', b)
    requires forall c :: 0 <= c < |d| && c in own && IsData(own[c].pos) ==> d'[c] == d[c]
    ensures Owned(d', t', own[b := Owner(i, p)], DataStart(sb), sb.size) && SameBytes(d, t, d', t')
  {
    MovedOwns(d, t, d', t', own, own[b := Owner(i, p)], DataStart(sb), sb.size, i, p, b);
    MovedBytes(d, t, d', t', own, DataStart(sb), sb.size, i, p, b);
  }

  /** A fresh block in an empty entry of a table. */
  lemma EntryFilledOk(d: Disk, d1: Disk, d': Disk, sb: Superblock, own: map<nat, Owner>, i: nat, din: Dinode, p: Pos,
                      tb: nat, b: u32)
    requires Geometry(sb) && Sized(d, sb) && |din.addrs| == 13 && 1 <= i < sb.ninodes && ValidPos(p) && !p.Slot?
    requires Inv(d, sb, Hand(d, sb, i, din), own) && Allocated(d, d1, sb, b)
    requires Ptr(d, din.addrs, p) == 0 && tb == Ptr(d, din.addrs, Parent(p)) != 0 && tb < |d| && |d1[tb]| == 512
    requires Index(p) < 128 && d' == d1[tb := Write32(d1[tb], 4 * Index(p), b)]
    ensures Sized(d', sb) && Inv(d', sb, Hand(d', sb, i, din), own[b := Owner(i, p)])
    ensures SameInodes(d, d', sb) && SameBytes(d, Hand(d, sb, i, din), d', Hand(d', sb, i, din))
    ensures Ptr(d', din.addrs, p) == b && Moved(d, Hand(d, sb, i, din), d', Hand(d', sb, i, din), i, p, b)
  {
    var t := Hand(d, sb, i, din);
    var lo, hi := DataStart(sb), sb.size;
    AllocatedKeeps(d, d1, sb, t, own, b);
    OwnedPtr(d, t, own, lo, hi, i, Parent(p));
    HandSame(d, d', sb, i, din, din);
    assert t[i := din] == t;
    assert EntryFilled(d, d1, d', own, tb, Index(p), b);
    forall i', p' | 1 <= i' < |t| && ValidPos(p')
      ensures Ptr(d', t[i'].addrs, p') == if i' == i && p' == p then b else Ptr(d, t[i'].addrs, p')
    {
      EntryMoved(d, t, d1, d', own, lo, hi, i, p, b, i', p');
    }
    EntryMoved(d, t, d1, d', own, lo, hi, i, p, b, i, p);
    EntryKeepsData(d, d1, d', own, tb);
    Fill(d, t, d', t, sb, own, i, p, b);
    AllocatedMarks(d, d1, sb, own, b, Owner(i, p));
    BitDepends(d1, d', sb);
  }

  lemma EntryKeepsData(d: Disk, d1: Disk, d': Disk, own: map<nat, Owner>, tb: nat)
    requires tb in own && !IsData(own[tb].pos) && Keeps(d, d1, own) && |d'| == |d|
    requires forall c :: 0 <= c < |d| && c != tb ==> d'[c] == d1[c]
    ensures forall c :: 0 <= c < |d| && c in own && IsData(own[c].pos) ==> d'[c] == d[c]
  {
  }

  lemma SameBytesTrans(d: Disk, t: Table, d1: Disk, t1: Table, d2: Disk, t2: Table)
    requires Shaped(t) && Shaped(t1) && Shaped(t2) && |t| == |t1| == |t2|
    requires SameBytes(d, t, d1, t1) && SameBytes(d1, t1, d2, t2)
    ensures SameBytes(d, t, d2, t2)
  {
    forall i, x | 1 <= i < |t| && 0 <= x < 8459776 ensures Byte(d2, t2[i].addrs, x) == Byte(d, t[i].addrs, x) {
      assert Byte(d1, t1[i].addrs, x) == Byte(d, t[i].addrs, x);
    }
  }

  // ---- contents ----

  /** The file's bytes. */
  function Content(d: Disk, din: Dinode): (s: seq<u8>)
    requires |din.addrs| == 13 && din.size <= 8459776
    ensures |s| == din.size
  {
    seq(din.size, x requires 0 <= x < din.size => Byte(d, din.addrs, x))
  }

  /** out holds the file's bytes from off on. */
  lemma RowGrows(d: Disk, a: seq<u32>, off: nat, out: seq<u8>, bytes: seq<u8>)
    requires |a| == 13 && off + |out| + |bytes| <= 8459776
    requires forall x :: 0 <= x < |out| ==> out[x] == Byte(d, a, off + x)
    requires forall x :: 0 <= x < |bytes| ==> bytes[x] == Byte(d, a, off + |out| + x)
    ensures forall x :: 0 <= x < |out + bytes| ==> (out + bytes)[x] == Byte(d, a, off + x)
  {
    forall x | 0 <= x < |out + bytes| ensures (out + bytes)[x] == Byte(d, a, off + x) {
      if x >= |out| { assert off + |out| + (x - |out|) == off + x; }
    }
  }

  lemma RowIsContent(d: Disk, din: Dinode, off: nat, out: seq<u8>)
    requires |din.addrs| == 13 && din.size <= 8459776 && off + |out| <= din.size
    requires forall x :: 0 <= x < |out| ==> out[x] == Byte(d, din.addrs, off + x)
    ensures out == Content(d, din)[off..off + |out|]
  {
  }

  /** A byte sequence with data written at off, zero-extended as far as needed. */
  function Overlaid(s: seq<u8>, off: nat, data: seq<u8>): seq<u8> {
    var n := if off + |data| > |s| then off + |data| else |s|;
    seq(n, x requires 0 <= x < n =>
      if off <= x < off + |data| then data[x - off] else if x < |s| then s[x] else 0)
  }

  /** Past its size a file is zero, so that growing it shows no old bytes. */
  ghost predicate TailZero(d: Disk, din: Dinode)
    requires |din.addrs| == 13
  {
    forall x :: din.size <= x < 8459776 ==> Byte(d, din.addrs, x) == 0
  }

  /** The first n bytes of data are in place in file i; all other bytes of all files are as before. */
  ghost predicate Written(d: Disk, t: Table, d': Disk, t': Table, i: nat, off: nat, data: seq<u8>, n: nat)
    requires Shaped(t) && Shaped(t') && |t| == |t'| && n <= |data|
  {
    forall i', x {:trigger Byte(d', t'[i'].addrs, x)} :: 1 <= i' < |t| && 0 <= x < 8459776 ==>
      Byte(d', t'[i'].addrs, x) == if i' == i && off <= x < off + n then data[x - off] else Byte(d, t[i'].addrs, x)
  }

  lemma WrittenSame(d: Disk, t: Table, d1: Disk, t1: Table, d2: Disk, t2: Table, i: nat, off: nat, data: seq<u8>,
                    n: nat)
    requires Shaped(t) && Shaped(t1) && Shaped(t2) && |t| == |t1| == |t2| && n <= |data|
    requires Written(d, t, d1, t1, i, off, data, n) && SameBytes(d1, t1, d2, t2)
    ensures Written(d, t, d2, t2, i, off, data, n)
  {
    forall i', x | 1 <= i' < |t| && 0 <= x < 8459776
      ensures Byte(d2, t2[i'].addrs, x) == if i' == i
        && off <= x < off + n then data[x - off] else Byte(d, t[i'].addrs, x)
    {
      assert Byte(d2, t2[i'].addrs, x) == Byte(d1, t1[i'].addrs, x);
    }
  }

  /** One more run of bytes, inside one block. */
  lemma WrittenMore(d: Disk, t: Table, d1: Disk, d2: Disk, t1: Table, i: nat, off: nat, data: seq<u8>, n: nat,
                    take: nat, buf: seq<u8>)
    requires Shaped(t) && Shaped(t1) && |t| == |t1| && n + take <= |data| && 1 <= i < |t| && |buf| == 512
    requires off + |data| <= 8459776 && 0 < take && (off + n) % 512 + take <= 512
    requires Written(d, t, d1, t1, i, off, data, n)
    requires BlockReplaced(d1, d2, t1, i, (off + n) / 512, buf)
    requires forall w :: 0 <= w < 512 ==>
      (buf[w] == if (off + n) % 512 <= w < (off + n) % 512 + take then data[n + w - (off + n) % 512]
                 else Byte(d1, t1[i].addrs, (off + n) / 512 * 512 + w))
    ensures Written(d, t, d2, t1, i, off, data, n + take)
  {
    forall i', x | 1 <= i' < |t| && 0 <= x < 8459776
      ensures Byte(d2, t1[i'].addrs, x) == if i' == i
        && off <= x < off + n + take then data[x - off] else Byte(d, t[i'].addrs, x)
    {
      assert Byte(d2, t1[i'].addrs, x) == if i' == i
        && x / 512 == (off + n) / 512 then buf[x % 512] else Byte(d1, t1[i'].addrs, x);
      assert Byte(d1, t1[i'].addrs, x) == if i' == i
        && off <= x < off + n then data[x - off] else Byte(d, t[i'].addrs, x);
      if i' == i {
        if x / 512 == (off + n) / 512 { InBlock(x, off + n); }
        else { OutOfBlock(x, off + n, take); }
      }
    }
  }

  lemma InBlock(x: nat, pos: nat)
    requires x / 512 == pos / 512
    ensures x - pos == x % 512 - pos % 512 && x == pos / 512 * 512 + x % 512
  {
  }

  lemma BlockByte(n: nat, w: nat)
    requires w < 512
    ensures (n * 512 + w) / 512 == n && (n * 512 + w) % 512 == w
  {
  }

  lemma SameBlock(pos: nat, x: nat)
    requires pos % 512 + x < 512
    ensures (pos + x) / 512 == pos / 512 && (pos + x) % 512 == pos % 512 + x
  {
  }

  lemma OutOfBlock(x: nat, pos: nat, take: nat)
    requires x / 512 != pos / 512 && pos % 512 + take <= 512
    ensures !(pos <= x < pos + take)
  {
  }

  /** A finished write is the file with the data laid over it; every other file is untouched. */
  lemma WrittenContent(d: Disk, t: Table, d': Disk, t': Table, i: nat, off: nat, data: seq<u8>)
    requires Shaped(t) && Shaped(t') && |t| == |t'| && 1 <= i < |t| && off + |data| <= 8459776
    requires t[i].size <= 8459776 && TailZero(d, t[i])
    requires Written(d, t, d', t', i, off, data, |data|)
    requires t'[i].size as int == if off + |data| > t[i].size then off + |data| else t[i].size
    ensures Content(d', t'[i]) == Overlaid(Content(d, t[i]), off, data) && TailZero(d', t'[i])
  {
    forall x | 0 <= x < 8459776
      ensures Byte(d', t'[i].addrs, x) == if off <= x < off + |data| then data[x - off] else Byte(d, t[i].addrs, x)
    {
    }
    var c, o := Content(d', t'[i]), Overlaid(Content(d, t[i]), off, data);
    forall x | 0 <= x < |c| ensures c[x] == o[x] {
      assert Byte(d', t'[i].addrs, x) == if off <= x < off + |data| then data[x - off] else Byte(d, t[i].addrs, x);
    }
  }

  lemma OtherContent(d: Disk, t: Table, d': Disk, t': Table, i: nat, off: nat, data: seq<u8>, j: nat)
    requires Shaped(t) && Shaped(t') && |t| == |t'| && 1 <= j < |t| && j != i && t'[j] == t[j]
    requires Written(d, t, d', t', i, off, data, |data|) && t[j].size <= 8459776
    ensures Content(d', t'[j]) == Content(d, t[j]) && (TailZero(d, t[j]) ==> TailZero(d', t'[j]))
  {
    forall x | 0 <= x < 8459776 ensures Byte(d', t'[j].addrs, x) == Byte(d, t[j].addrs, x) {
    }
    assert forall x :: 0 <= x < t[j].size ==> Content(d', t'[j])[x] == Content(d, t[j])[x];
  }

  // ---- storing an inode ----

  ghost predicate OutsideInodes(d: Disk, d': Disk, sb: Superblock) {
    |d'| == |d| && forall x :: 0 <= x < |d| && !(2 <= x < sb.bmapstart) ==> d'[x] == d[x]
  }

  lemma UpdateKeeps(d: Disk, d': Disk, sb: Superblock, t: Table, own: map<nat, Owner>)
    requires Inv(d, sb, t, own) && Sized(d', sb) && OutsideInodes(d, d', sb)
    ensures Inv(d', sb, t, own) && SameBytes(d, t, d', t)
  {
    forall c | 0 <= c < |d| && c in own ensures d'[c] == d[c] {
      OwnedBlock(d, t, own, DataStart(sb), sb.size, c);
    }
    KeepsAll(d, d', t, own, DataStart(sb), sb.size);
    BitDepends(d, d', sb);
  }

  /** The whole invariant: also, sizes are in range and files are zero past their sizes. */
  ghost predicate Tidy(d: Disk, sb: Superblock, t: Table, own: map<nat, Owner>) {
    && Inv(d, sb, t, own)
    && forall i :: 1 <= i < |t| ==> t[i].size <= 8459776 && TailZero(d, t[i])
  }

  /** Free inodes own nothing. */
  predicate FreeEmpty(t: Table) {
    forall i :: 1 <= i < |t| && t[i].kind == 0 ==> t[i].size == 0 && Empty(t[i])
  }

  predicate Empty(din: Dinode) {
    forall k :: 0 <= k < |din.addrs| ==> din.addrs[k] == 0
  }

  lemma FreeEmptyHand(d: Disk, sb: Superblock, i: nat, din: Dinode, din': Dinode)
    requires Geometry(sb) && Sized(d, sb) && |din.addrs| == 13 && |din'.addrs| == 13
    requires din'.kind == 0 ==> din'.size == 0 && Empty(din')
    ensures FreeEmpty(Hand(d, sb, i, din)) ==> FreeEmpty(Hand(d, sb, i, din'))
  {
    var t, t' := Hand(d, sb, i, din), Hand(d, sb, i, din');
    assert forall j :: 1 <= j < |t| && j != i ==> t'[j] == t[j];
  }

  /** Giving a free inode new attributes changes no file and no pointer. */
  lemma FreshInode(d: Disk, d': Disk, sb: Superblock, own: map<nat, Owner>, i: nat, din: Dinode)
    requires Geometry(sb) && Sized(d, sb) && Sized(d', sb) && 1 <= i < sb.ninodes && |din.addrs| == 13
    requires Tidy(d, sb, Stored(d, sb), own) && Inode(d, sb, i).size == 0 && Empty(Inode(d, sb, i))
    requires din.size == 0 && Empty(din) && OutsideInodes(d, d', sb) && Stored(d', sb) == Hand(d, sb, i, din)
    ensures Tidy(d', sb, Stored(d', sb), own) && Content(d', din) == [] && OthersSame(d, d', Stored(d', sb), i)
  {
    var t, t' := Stored(d, sb), Stored(d', sb);
    assert t[i].addrs == din.addrs;
    assert forall j :: 0 <= j < |t| ==> t'[j].addrs == t[j].addrs;
    SamePtrsOwn(d, t, d, t', own, DataStart(sb), sb.size);
    UpdateKeeps(d, d', sb, t', own);
    EmptyBytes(d, din);
    forall j | 1 <= j < |t'| ensures t'[j].size <= 8459776 && TailZero(d, t'[j]) {
      assert j != i ==> t'[j] == t[j];
    }
    TidySame(d, t', d', sb, own);
  }

  /** The same table over disks on which every file reads the same. */
  lemma TidySame(d: Disk, t: Table, d': Disk, sb: Superblock, own: map<nat, Owner>)
    requires Tidy(d, sb, t, own) && Inv(d', sb, t, own) && SameBytes(d, t, d', t)
    ensures Tidy(d', sb, t, own)
    ensures forall i :: 1 <= i < |t| ==> Content(d', t[i]) == Content(d, t[i])
  {
    forall i | 1 <= i < |t| ensures Content(d', t[i]) == Content(d, t[i]) && TailZero(d', t[i]) {
      forall x | 0 <= x < 8459776 ensures Byte(d', t[i].addrs, x) == Byte(d, t[i].addrs, x) { }
      assert forall x :: 0 <= x < t[i].size ==> Content(d', t[i])[x] == Content(d, t[i])[x];
    }
  }

  /** After a write: file i has the data laid over it, and every other file is untouched. */
  lemma WrittenTidy(d: Disk, t: Table, d': Disk, t': Table, sb: Superblock, own: map<nat, Owner>, own': map<nat, Owner>,
                    i: nat, off: nat, data: seq<u8>)
    requires Tidy(d, sb, t, own) && Inv(d', sb, t', own') && 1 <= i < |t| && off + |data| <= 8459776
    requires Written(d, t, d', t', i, off, data, |data|)
    requires t'[i].size as int == if off + |data| > t[i].size then off + |data| else t[i].size
    requires forall j :: 0 <= j < |t| && j != i ==> t'[j] == t[j]
    ensures Tidy(d', sb, t', own')
    ensures Content(d', t'[i]) == Overlaid(Content(d, t[i]), off, data)
    ensures forall j :: 1 <= j < |t| && j != i ==> Content(d', t'[j]) == Content(d, t[j])
  {
    WrittenContent(d, t, d', t', i, off, data);
    forall j | 1 <= j < |t| && j != i
      ensures t'[j].size <= 8459776 && Content(d', t'[j]) == Content(d, t[j]) && TailZero(d', t'[j])
    {
      OtherContent(d, t, d', t', i, off, data, j);
    }
  }

  // ---- one block of a write ----

  lemma BlockWritten(d: Disk, d': Disk, sb: Superblock, own: map<nat, Owner>, i: nat, din: Dinode, n: nat, block: nat,
                     buf: seq<u8>)
    requires Geometry(sb) && Sized(d, sb) && |din.addrs| == 13 && 1 <= i < sb.ninodes
      && Inv(d, sb, Hand(d, sb, i, din), own)
    requires n < 16523 && block == Ptr(d, din.addrs, DataPos(n)) != 0 && |buf| == 512
    requires |d'| == |d| && (block < |d| ==> d' == d[block := buf])
    ensures block < |d| && Sized(d', sb) && SameInodes(d, d', sb) && Hand(d', sb, i, din) == Hand(d, sb, i, din)
    ensures Inv(d', sb, Hand(d', sb, i, din), own) && BlockReplaced(d, d', Hand(d, sb, i, din), i, n, buf)
  {
    var t := Hand(d, sb, i, din);
    OwnedPtr(d, t, own, DataStart(sb), sb.size, i, DataPos(n));
    DataWritten(d, d', t, own, DataStart(sb), sb.size, block, i, n);
    BitDepends(d, d', sb);
    HandSame(d, d', sb, i, din, din);
    assert t[i := din] == t;
  }

  /** The block with part of it replaced, in terms of the file's bytes. */
  lemma SplicedBytes(d: Disk, a: seq<u32>, n: nat, block: nat, within: nat, bytes: seq<u8>, buf: seq<u8>, w: nat)
    requires |a| == 13 && n < 16523 && w < 512 && block == Ptr(d, a, DataPos(n)) != 0 && block < |d|
      && |d[block]| == 512
    requires within + |bytes| <= 512 && buf == d[block][..within] + bytes + d[block][within + |bytes|..]
    ensures |buf| == 512
    ensures n * 512 + w < 8459776
    ensures buf[w] == if within <= w < within + |bytes| then bytes[w - within] else Byte(d, a, n * 512 + w)
  {
    BlockByte(n, w);
  }

  lemma ChunkWritten(d: Disk, t: Table, d1: Disk, d2: Disk, t1: Table, i: nat, off: nat, data: seq<u8>, src: nat,
                     take: nat, n: nat, block: nat, within: nat, buf: seq<u8>)
    requires Shaped(t) && Shaped(t1) && |t| == |t1| && src + take <= |data| && 1 <= i < |t| && |buf| == 512
    requires n == (off + src) / 512 && within == (off + src) % 512 && off + |data| <= 8459776 && 0 < take
      && within + take <= 512
    requires n < 16523 && block == Ptr(d1, t1[i].addrs, DataPos(n)) != 0 && block < |d1| && |d1[block]| == 512
    requires buf == d1[block][..within] + data[src..src + take] + d1[block][within + take..]
    requires Written(d, t, d1, t1, i, off, data, src) && BlockReplaced(d1, d2, t1, i, n, buf)
    ensures Written(d, t, d2, t1, i, off, data, src + take)
  {
    var a := t1[i].addrs;
    forall w | 0 <= w < 512
      ensures n * 512 + w < 8459776
      ensures buf[w] == if within <= w < within + take then data[src + w - within] else Byte(d1, a, n * 512 + w)
    {
      SplicedBytes(d1, a, n, block, within, data[src..src + take], buf, w);
    }
    WrittenMore(d, t, d1, d2, t1, i, off, data, src, take, buf);
  }

  // ---- the end of a write ----

  /** Every file but file i reads the same. */
  ghost predicate OthersSame(d: Disk, d': Disk, t: Table, i: nat)
    requires Shaped(t)
  {
    forall j :: 1 <= j < |t| && j != i && t[j].size <= 8459776 ==> Content(d', t[j]) == Content(d, t[j])
  }

  /** Only the pointers of an inode matter to the tree. */
  lemma SizeOnly(d: Disk, sb: Superblock, t: Table, t': Table, own: map<nat, Owner>, d0: Disk, t0: Table, i: nat,
                 off: nat, data: seq<u8>)
    requires Inv(d, sb, t, own) && |t'| == |t| && Shaped(t') && forall j :: 0 <= j < |t| ==> t'[j].addrs == t[j].addrs
    requires Shaped(t0) && |t0| == |t| && Written(d0, t0, d, t, i, off, data, |data|)
    ensures Inv(d, sb, t', own) && Written(d0, t0, d, t', i, off, data, |data|)
  {
    SamePtrsOwn(d, t, d, t', own, DataStart(sb), sb.size);
    forall j, x | 1 <= j < |t| && 0 <= x < 8459776
      ensures Byte(d, t'[j].addrs, x) == if j == i
        && off <= x < off + |data| then data[x - off] else Byte(d0, t0[j].addrs, x)
    {
      assert Byte(d, t'[j].addrs, x) == Byte(d, t[j].addrs, x);
    }
  }

  lemma WriteFinished(d: Disk, d1: Disk, d2: Disk, sb: Superblock, own: map<nat, Owner>, own1: map<nat, Owner>,
                      i: nat, din: Dinode, din1: Dinode, din2: Dinode, off: nat, data: seq<u8>)
    requires Geometry(sb) && Sized(d, sb) && Sized(d1, sb) && Sized(d2, sb) && 1 <= i < sb.ninodes
    requires |din.addrs| == |din1.addrs| == 13 && off + |data| <= 8459776 && din1 == din.(addrs := din1.addrs)
    requires din2 == din1.(size := if off + |data| > din.size then off + |data| else din.size)
    requires Tidy(d, sb, Hand(d, sb, i, din), own) && Inv(d1, sb, Hand(d1, sb, i, din1), own1)
    requires SameInodes(d, d1, sb) && OutsideInodes(d1, d2, sb) && Stored(d2, sb) == Hand(d1, sb, i, din2)
    requires Written(d, Hand(d, sb, i, din), d1, Hand(d1, sb, i, din1), i, off, data, |data|)
    ensures Tidy(d2, sb, Stored(d2, sb), own1) && Stored(d2, sb) == Hand(d, sb, i, din2)
    ensures din2.size <= 8459776 && din.size <= 8459776 && Content(d2, din2) == Overlaid(Content(d, din), off, data)
    ensures OthersSame(d, d2, Stored(d2, sb), i)
  {
    var t, t1, t2 := Hand(d, sb, i, din), Hand(d1, sb, i, din1), Hand(d1, sb, i, din2);
    HandSame(d, d1, sb, i, din, din1);
    HandSame(d, d1, sb, i, din, din2);
    HandSame(d, d, sb, i, din, din2);
    SizeOnly(d1, sb, t1, t2, own1, d, t, i, off, data);
    WrittenTidy(d, t, d1, t2, sb, own, own1, i, off, data);
    UpdateKeeps(d1, d2, sb, t2, own1);
    TidySame(d1, t2, d2, sb, own1);
    assert t2[i] == din2 && t[i] == din;
    assert Content(d2, t2[i]) == Content(d1, t2[i]);
    forall j | 1 <= j < |t2| && j != i && t2[j].size <= 8459776 ensures Content(d2, t2[j]) == Content(d, t2[j]) {
      assert t2[j] == t[j];
      assert Content(d2, t2[j]) == Content(d1, t2[j]);
    }
  }

  // ---- truncation ----

  /** Every block is in use. */
  ghost predicate Full(d: Disk, sb: Superblock)
    requires Geometry(sb) && Sized(d, sb)
  {
    forall c :: 0 <= c < sb.size ==> Bit(d, sb, c)
  }

  ghost predicate OnlyBitmap(d: Disk, d': Disk, sb: Superblock) {
    |d'| == |d| && forall x :: 0 <= x < |d| && !(sb.bmapstart <= x < DataStart(sb)) ==> d'[x] == d[x]
  }

  /** The bits of inode i's blocks at the positions in done are cleared; no other bit and no block
      outside the bitmap changed. */
  ghost predicate Freed(d: Disk, d': Disk, sb: Superblock, own: map<nat, Owner>, i: nat, done: set<Pos>) {
    && Geometry(sb) && Sized(d, sb) && Sized(d', sb) && OnlyBitmap(d, d', sb)
    && forall c {:trigger Bit(d', sb, c)} :: 0 <= c < sb.size ==>
      (Bit(d', sb, c) <==> Bit(d, sb, c) && !(c in own && own[c].inum == i && own[c].pos in done))
  }

  lemma FreedNothing(d: Disk, sb: Superblock, own: map<nat, Owner>, i: nat)
    requires Geometry(sb) && Sized(d, sb)
    ensures Freed(d, d, sb, own, i, {})
  {
  }

  /** Positions that point nowhere have no block to free. */
  lemma FreedEmpty(d: Disk, d': Disk, sb: Superblock, t: Table, own: map<nat, Owner>, i: nat, done: set<Pos>,
                   more: set<Pos>)
    requires Inv(d, sb, t, own) && 1 <= i < |t| && Freed(d, d', sb, own, i, done)
    requires forall p :: p in more ==> ValidPos(p) && Ptr(d, t[i].addrs, p) == 0
    ensures Freed(d, d', sb, own, i, done + more)
  {
    forall c | 0 <= c < sb.size && c in own && own[c].inum == i ensures own[c].pos !in more {
      OwnedBlock(d, t, own, DataStart(sb), sb.size, c);
    }
  }

  /** Clearing the bit of the block at one more position. */
  lemma FreedOne(d: Disk, d1: Disk, d2: Disk, sb: Superblock, t: Table, own: map<nat, Owner>, i: nat, done: set<Pos>,
                 p: Pos)
    requires Inv(d, sb, t, own) && 1 <= i < |t| && Freed(d, d1, sb, own, i, done) && ValidPos(p)
    requires Ptr(d, t[i].addrs, p) != 0 && Sized(d2, sb) && BitsBut(d1, d2, sb, Ptr(d, t[i].addrs, p), false)
      && OnlyBitmap(d1, d2, sb)
    ensures Freed(d, d2, sb, own, i, done + {p})
  {
    var b := Ptr(d, t[i].addrs, p);
    OwnedPtr(d, t, own, DataStart(sb), sb.size, i, p);
    forall c | 0 <= c < sb.size && c in own && own[c] == Owner(i, p) ensures c == b {
      OwnedBlock(d, t, own, DataStart(sb), sb.size, c);
    }
    forall c | 0 <= c < sb.size
      ensures Bit(d2, sb, c) <==> Bit(d, sb, c) && !(c in own && own[c].inum == i && own[c].pos in done + {p})
    {
      assert Bit(d1, sb, c) <==> Bit(d, sb, c) && !(c in own && own[c].inum == i && own[c].pos in done);
    }
  }

  /** A table can still be read while bits are being cleared. */
  lemma FreedReads(d: Disk, d': Disk, sb: Superblock, t: Table, own: map<nat, Owner>, i: nat, done: set<Pos>, j: nat,
                   p: Pos)
    requires Inv(d, sb, t, own) && 1 <= j < |t| && Freed(d, d', sb, own, i, done) && ValidPos(p)
    ensures Ptr(d', t[j].addrs, p) == Ptr(d, t[j].addrs, p)
    ensures var b := Ptr(d, t[j].addrs, p); b != 0 ==> DataStart(sb) <= b < sb.size && d'[b] == d[b]
  {
    forall c | 0 <= c < |d| && c in own ensures d'[c] == d[c] {
      OwnedBlock(d, t, own, DataStart(sb), sb.size, c);
    }
    KeepsPointers(d, d', t, own, DataStart(sb), sb.size, j, p);
    OwnedPtr(d, t, own, DataStart(sb), sb.size, j, p);
  }

  /** What remains owned. */
  ghost function Without(own: map<nat, Owner>, i: nat): map<nat, Owner> {
    map c | c in own && own[c].inum != i :: own[c]
  }

  lemma EmptyPointers(d: Disk, din: Dinode, p: Pos)
    requires |din.addrs| == 13 && Empty(din) && ValidPos(p)
    ensures Ptr(d, din.addrs, p) == 0
  {
  }

  lemma EmptyBytes(d: Disk, din: Dinode)
    requires |din.addrs| == 13 && Empty(din)
    ensures TailZero(d, din) && (din.size == 0 ==> Content(d, din) == [])
    ensures forall x :: 0 <= x < 8459776 ==> Byte(d, din.addrs, x) == 0
  {
    forall x | 0 <= x < 8459776 ensures Byte(d, din.addrs, x) == 0 {
      EmptyPointers(d, din, DataPos(x / 512));
    }
  }

  /** Once every position is done, exactly inode i's blocks are free, and the rest of the tree stands. */
  lemma Truncated(d: Disk, d': Disk, sb: Superblock, t: Table, t': Table, own: map<nat, Owner>, i: nat, done: set<Pos>)
    requires Tidy(d, sb, t, own) && 1 <= i < |t| && Freed(d, d', sb, own, i, done)
      && forall p :: ValidPos(p) ==> p in done
    requires |t'| == |t| && Shaped(t') && Empty(t'[i]) && t'[i].size == 0
      && forall j :: 0 <= j < |t| && j != i ==> t'[j] == t[j]
    ensures Tidy(d', sb, t', Without(own, i)) && Content(d', t'[i]) == [] && OthersSame(d, d', t', i)
  {
    var own' := Without(own, i);
    forall j, p | 1 <= j < |t| && ValidPos(p)
      ensures Ptr(d', t'[j].addrs, p) == if j == i then 0 else Ptr(d, t[j].addrs, p)
    {
      if j == i { EmptyPointers(d', t'[i], p); } else { FreedReads(d, d', sb, t, own, i, done, j, p); }
    }
    TruncatedOwns(d, t, d', t', own, DataStart(sb), sb.size, i);
    TruncatedMarks(d, d', sb, t, own, i, done);
    EmptyBytes(d', t'[i]);
    forall j | 1 <= j < |t| && j != i
      ensures t'[j].size <= 8459776 && Content(d', t'[j]) == Content(d, t'[j]) && TailZero(d', t'[j])
    {
      TruncatedOther(d, d', sb, t, own, i, done, j);
    }
  }

  lemma TruncatedOwns(d: Disk, t: Table, d': Disk, t': Table, own: map<nat, Owner>, lo: nat, hi: nat, i: nat)
    requires Shaped(t) && Shaped(t') && |t| == |t'| && Owned(d, t, own, lo, hi) && 0 < lo
    requires forall j, p :: 1 <= j < |t| && ValidPos(p) ==>
      Ptr(d', t'[j].addrs, p) == if j == i then 0 else Ptr(d, t[j].addrs, p)
    ensures Owned(d', t', Without(own, i), lo, hi)
  {
    var own' := Without(own, i);
    forall j, p | 1 <= j < |t| && ValidPos(p) && Ptr(d', t'[j].addrs, p) != 0
      ensures Ptr(d', t'[j].addrs, p) in own' && own'[Ptr(d', t'[j].addrs, p)] == Owner(j, p)
    {
      OwnedPtr(d, t, own, lo, hi, j, p);
    }
    forall c | c in own' ensures lo <= c < hi && Holder(d', t', own'[c]) == c {
      OwnedBlock(d, t, own, lo, hi, c);
    }
  }

  lemma TruncatedMarks(d: Disk, d': Disk, sb: Superblock, t: Table, own: map<nat, Owner>, i: nat, done: set<Pos>)
    requires Inv(d, sb, t, own) && 1 <= i < |t| && Freed(d, d', sb, own, i, done)
      && forall p :: ValidPos(p) ==> p in done
    ensures Marked(d', sb, Without(own, i))
  {
    forall c | 0 <= c < sb.size ensures Bit(d', sb, c) <==> c < DataStart(sb) || c in Without(own, i) {
      assert Bit(d, sb, c) <==> c < DataStart(sb) || c in own;
      if c in own { OwnedBlock(d, t, own, DataStart(sb), sb.size, c); }
    }
  }

  lemma TruncatedOther(d: Disk, d': Disk, sb: Superblock, t: Table, own: map<nat, Owner>, i: nat, done: set<Pos>,
                       j: nat)
    requires Tidy(d, sb, t, own) && 1 <= j < |t| && Freed(d, d', sb, own, i, done)
    ensures t[j].size <= 8459776 && Content(d', t[j]) == Content(d, t[j]) && TailZero(d', t[j])
  {
    forall c | 0 <= c < |d| && c in own ensures d'[c] == d[c] {
      OwnedBlock(d, t, own, DataStart(sb), sb.size, c);
    }
    forall x | 0 <= x < 8459776 ensures Byte(d', t[j].addrs, x) == Byte(d, t[j].addrs, x) {
      KeepsBytes(d, d', t, own, DataStart(sb), sb.size, j, x);
    }
    assert forall x :: 0 <= x < t[j].size ==> Content(d', t[j])[x] == Content(d, t[j])[x];
  }

  /** Storing an inode twice is storing it once, for the table and for every other file. */
  lemma FreedChain(d: Disk, d1: Disk, d2: Disk, sb: Superblock, i: nat, din: Dinode, din1: Dinode, din2: Dinode)
    requires Geometry(sb) && Sized(d, sb) && Sized(d1, sb) && Sized(d2, sb) && 1 <= i < sb.ninodes
    requires |din.addrs| == |din1.addrs| == |din2.addrs| == 13
    requires Stored(d1, sb) == Hand(d, sb, i, din1) && Stored(d2, sb) == Hand(d1, sb, i, din2)
    requires OthersSame(d, d1, Stored(d1, sb), i) && OthersSame(d1, d2, Stored(d2, sb), i)
    ensures Stored(d2, sb) == Hand(d, sb, i, din2) && OthersSame(d, d2, Stored(d2, sb), i)
  {
    var t1, t2 := Stored(d1, sb), Stored(d2, sb);
    forall j | 0 <= j < sb.ninodes && j != i ensures t2[j] == t1[j] && Inode(d1, sb, j) == Inode(d, sb, j) {
      assert t1[j] == Inode(d1, sb, j);
      assert t1[j] == Hand(d, sb, i, din1)[j];
    }
    assert t2 == Hand(d, sb, i, din2);
    forall j | 1 <= j < |t2| && j != i && t2[j].size <= 8459776 ensures Content(d2, t2[j]) == Content(d, t2[j]) {
      assert t2[j] == t1[j];
      assert Content(d1, t1[j]) == Content(d, t1[j]);
    }
  }

  lemma RootChain(d: Disk, d1: Disk, sb: Superblock, din: Dinode)
    requires Geometry(sb) && Sized(d, sb) && Sized(d1, sb) && 1 < sb.ninodes && |din.addrs| == 13
    requires Stored(d1, sb) == Hand(d, sb, 1, Inode(d1, sb, 1))
    ensures Hand(d1, sb, 1, din) == Hand(d, sb, 1, din)
    ensures Hand(d1, sb, 1, Inode(d1, sb, 1)) == Stored(d1, sb)
  {
    var t1 := Stored(d1, sb);
    forall j | 0 <= j < sb.ninodes && j != 1 ensures Inode(d1, sb, j) == Inode(d, sb, j) {
      assert t1[j] == Hand(d, sb, 1, Inode(d1, sb, 1))[j];
    }
  }

  // ---- a blank disk ----

  ghost predicate ZeroFrom2(d: Disk) {
    forall b :: 2 <= b < |d| ==> d[b] == Zeros(512)
  }

  lemma ZeroWord(n: nat, a: nat)
    requires a + 4 <= n
    ensures Read32(Zeros(n), a) == 0
  {
  }

  lemma BlankInode(d: Disk, sb: Superblock, i: nat)
    requires Geometry(sb) && Sized(d, sb) && i < sb.ninodes && forall x :: 2 <= x < sb.bmapstart ==> d[x] == Zeros(512)
    ensures Inode(d, sb, i).kind == 0 && Inode(d, sb, i).size == 0 && Empty(Inode(d, sb, i))
  {
    InodeInTable(sb, i);
    var off := InodeOff(i);
    ZeroWord(512, off + 12);
    forall k | 0 <= k < 13 ensures Inode(d, sb, i).addrs[k] == 0 {
      ZeroWord(512, off + 28 + 4 * k);
    }
  }

  /** On a zeroed disk no bit is set. */
  lemma Blank(d: Disk, sb: Superblock)
    requires Geometry(sb) && Sized(d, sb) && ZeroFrom2(d)
    ensures forall c :: 0 <= c < sb.size ==> !Bit(d, sb, c)
  {
    forall c | 0 <= c < sb.size ensures !Bit(d, sb, c) {
      BitIs(d, sb, c);
      BitInBitmap(sb, c);
      ZeroBits(c % 8);
    }
  }

  /** With the metadata marked and nothing else, the invariant holds of the empty inode table. */
  lemma BlankTidy(d: Disk, sb: Superblock)
    requires Geometry(sb) && Sized(d, sb) && forall x :: 2 <= x < sb.bmapstart ==> d[x] == Zeros(512)
    requires forall c :: 0 <= c < sb.size ==> (Bit(d, sb, c) <==> c < DataStart(sb))
    ensures Tidy(d, sb, Stored(d, sb), map[]) && FreeEmpty(Stored(d, sb))
    ensures forall i :: 0 <= i < sb.ninodes ==> Inode(d, sb, i).kind == 0
  {
    var t := Stored(d, sb);
    forall i | 0 <= i < sb.ninodes ensures t[i].kind == 0 && t[i].size == 0 && Empty(t[i]) && TailZero(d, t[i]) {
      BlankInode(d, sb, i);
      EmptyBytes(d, t[i]);
    }
    forall i, p | 1 <= i < |t| && ValidPos(p) ensures Ptr(d, t[i].addrs, p) == 0 {
      EmptyPointers(d, t[i], p);
    }
    var own: map<nat, Owner> := map[];
    assert Owned(d, t, own, DataStart(sb), sb.size);
  }
}
