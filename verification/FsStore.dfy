/** The filesystem object: a disk of blocks changed in place. */
module FsStore {
  import opened Bytes
  import opened Words
  import opened FsLayout
  import opened FsTree
  import opened FsFile

  class Fs {
    var disk: Disk
    var sb: Superblock
    ghost var owner: map<nat, Owner>

    ghost predicate Valid()
      reads this
    {
      Geometry(sb) && Sized(disk, sb)
    }

    /** The invariant, with inode inum's copy in hand standing for the stored one. */
    ghost predicate Holds(inum: nat, din: Dinode)
      reads this
    {
      Valid() && |din.addrs| == 13 && 1 <= inum < sb.ninodes && Inv(disk, sb, Hand(disk, sb, inum, din), owner)
    }

    // ---- block bitmap ----

    method SetBit(b: nat, on: bool)
      requires Valid() && b < sb.size
      modifies `disk
      ensures Valid() && BitsBut(old(disk), disk, sb, b, on)
      ensures forall x :: 0 <= x < |disk| && !(sb.bmapstart <= x < DataStart(sb)) ==> disk[x] == old(disk[x])
    {
      BitInBitmap(sb, b);
      var block, byte := BitBlock(sb, b), BitByte(b);
      var buf := disk[block];
      buf := buf[byte := SetInByte(buf[byte], b % 8, on)];
      ghost var before := disk;
      disk := disk[block := buf];
      SetBitSpec(before, sb, b, on, buf, disk);
    }

    method IsSet(b: nat) returns (on: bool)
      requires Valid() && b < sb.size
      ensures on <==> Bit(disk, sb, b)
    {
      BitInBitmap(sb, b);
      var block, byte := BitBlock(sb, b), BitByte(b);
      on := And(disk[block][byte], BitMask(b)) != 0;
    }

    /** The first free block, marked and zeroed; fails when every block is in use. */
    method Balloc() returns (ok: bool, b: u32)
      requires Valid() && forall c :: 0 <= c < DataStart(sb) ==> Bit(disk, sb, c)
      modifies `disk
      ensures ok ==> Allocated(old(disk), disk, sb, b) && forall c :: 0 <= c < b ==> Bit(old(disk), sb, c)
      ensures !ok ==> disk == old(disk) && Full(disk, sb)
    {
      b := 0;
      while b < sb.size
        invariant 0 <= b <= sb.size && disk == old(disk)
        invariant forall c :: 0 <= c < b ==> Bit(disk, sb, c)
      {
        var used := IsSet(b);
        if !used {
          TakeBlock(b);
          return true, b;
        }
        b := b + 1;
      }
      return false, 0;
    }

    method TakeBlock(b: u32)
      requires Valid() && DataStart(sb) <= b < sb.size && !Bit(disk, sb, b)
      modifies `disk
      ensures Allocated(old(disk), disk, sb, b)
    {
      SetBit(b, true);
      ghost var marked := disk;
      disk := disk[b := Zeros(512)];
      BitDepends(marked, disk, sb);
    }

    method Bfree(b: nat)
      requires Valid() && b < sb.size
      modifies `disk
      ensures Valid() && BitsBut(old(disk), disk, sb, b, false)
      ensures forall x :: 0 <= x < |disk| && !(sb.bmapstart <= x < DataStart(sb)) ==> disk[x] == old(disk[x])
    {
      SetBit(b, false);
    }

    // ---- block mapping ----

    /** Nothing a file can show has changed, and the inode table is as it was. */
    twostate predicate Quiet(inum: nat, din: Dinode, din': Dinode)
      requires old(Valid()) && Valid() && |din.addrs| == 13 && |din'.addrs| == 13 && sb == old(sb)
      reads this
    {
      && SameInodes(old(disk), disk, sb)
      && SameBytes(old(disk), Hand(old(disk), sb, inum, din), disk, Hand(disk, sb, inum, din'))
    }

    method FillSlot(ghost inum: nat, din: Dinode, k: nat, ghost bn: nat) returns (ok: bool, din': Dinode, b: u32)
      requires Holds(inum, din) && k < 13 && din.addrs[k] == 0 && Leads(Slot(k), bn, bn + 1)
      modifies `disk, `owner
      ensures Holds(inum, din') && Quiet(inum, din, din') && (ok ==> b != 0)
      ensures din' == if ok then din.(addrs := din.addrs[k := b]) else din
      ensures !ok ==> Full(disk, sb)
      ensures Adds(old(owner), owner, inum, bn, bn + 1)
    {
      MetadataMarked(disk, sb, Hand(disk, sb, inum, din), owner);
      ghost var before := disk;
      ok, b := Balloc();
      din' := din;
      if ok {
        din' := din.(addrs := din.addrs[k := b]);
        Unmarked(before, sb, Hand(before, sb, inum, din), owner, b);
        SlotFilled(before, disk, sb, owner, inum, din, din', k, b);
        owner := owner[b as nat := Owner(inum, Slot(k))];
      }
    }

    method FillEntry(ghost inum: nat, ghost din: Dinode, ghost p: Pos, table: nat, buf: seq<u8>, j: nat,
                     ghost bn: nat) returns (ok: bool, b: u32)
      requires Holds(inum, din) && ValidPos(p) && !p.Slot? && Ptr(disk, din.addrs, p) == 0 && Leads(p, bn, bn + 1)
      requires table == Ptr(disk, din.addrs, Parent(p)) != 0 && table < |disk| && buf == disk[table]
        && j == Index(p) < 128
      modifies `disk, `owner
      ensures Holds(inum, din) && Quiet(inum, din, din) && (ok ==> b != 0 && Ptr(disk, din.addrs, p) == b)
      ensures !ok ==> Full(disk, sb)
      ensures Adds(old(owner), owner, inum, bn, bn + 1)
    {
      MetadataMarked(disk, sb, Hand(disk, sb, inum, din), owner);
      ghost var before := disk;
      ok, b := Balloc();
      if ok {
        ghost var taken := disk;
        Unmarked(before, sb, Hand(before, sb, inum, din), owner, b);
        StillRead(before, taken, sb, Hand(before, sb, inum, din), owner, inum, Parent(p), b);
        disk := disk[table := Write32(buf, 4 * j, b)];
        EntryFilledOk(before, taken, disk, sb, owner, inum, din, p, table, b);
        owner := owner[b as nat := Owner(inum, p)];
      }
    }

    /** The disk block behind file block bn, allocated with its tables when asked for. */
    method Bmap(ghost inum: nat, din: Dinode, bn: nat, alloc: bool) returns (ok: bool, din': Dinode, b: u32)
      requires Holds(inum, din)
      modifies `disk, `owner
      ensures Holds(inum, din') && Quiet(inum, din, din') && din' == din.(addrs := din'.addrs)
      ensures ok ==> bn < MAXFILE && b == Ptr(disk, din'.addrs, DataPos(bn)) && (alloc ==> b != 0)
      ensures !alloc ==> (ok <==> bn < MAXFILE) && disk == old(disk) && owner == old(owner) && din' == din
      ensures !ok && bn < MAXFILE ==> Full(disk, sb)
      ensures Adds(old(owner), owner, inum, bn, bn + 1)
    {
      din', b := din, 0;
      if bn < NDIRECT {
        b := din.addrs[bn];
        ok := true;
        if b == 0 && alloc {
          ok, din', b := FillSlot(inum, din, bn, bn);
        }
        return;
      }
      var idx := bn - NDIRECT;
      if idx < NINDIRECT {
        ok, din', b := BmapIndirect(inum, din, idx, alloc, bn);
        return;
      }
      idx := idx - NINDIRECT;
      if idx >= NINDIRECT * NINDIRECT {
        return false, din, 0;
      }
      ok, din', b := BmapDouble(inum, din, idx / NINDIRECT, idx % NINDIRECT, alloc, bn);
    }

    /** The table in a slot, and then the entry in it. */
    method BmapIndirect(ghost inum: nat, din: Dinode, j: nat, alloc: bool,
                        ghost bn: nat) returns (ok: bool, din': Dinode, b: u32)
      requires Holds(inum, din) && j < 128 && bn == 11 + j
      modifies `disk, `owner
      ensures Holds(inum, din') && Quiet(inum, din, din') && din' == din.(addrs := din'.addrs)
      ensures ok ==> b == Ptr(disk, din'.addrs, Ind(j)) && (alloc ==> b != 0)
      ensures !alloc ==> ok && disk == old(disk) && owner == old(owner) && din' == din
      ensures !ok ==> Full(disk, sb)
      ensures Adds(old(owner), owner, inum, bn, bn + 1)
    {
      din', b, ok := din, 0, true;
      var table := din.addrs[NDIRECT];
      if table == 0 {
        if !alloc { return; }
        ok, din', table := FillSlot(inum, din, 11, bn);
        if !ok { return; }
      }
      ok, b := Entry(inum, din', Ind(j), table, j, alloc, bn);
    }

    method BmapDouble(ghost inum: nat, din: Dinode, outer: nat, inner: nat, alloc: bool,
                      ghost bn: nat) returns (ok: bool, din': Dinode, b: u32)
      requires Holds(inum, din) && outer < 128 && inner < 128 && bn == 139 + 128 * outer + inner
      modifies `disk, `owner
      ensures Holds(inum, din') && Quiet(inum, din, din') && din' == din.(addrs := din'.addrs)
      ensures ok ==> b == Ptr(disk, din'.addrs, Inner(outer, inner)) && (alloc ==> b != 0)
      ensures !alloc ==> ok && disk == old(disk) && owner == old(owner) && din' == din
      ensures !ok ==> Full(disk, sb)
      ensures Adds(old(owner), owner, inum, bn, bn + 1)
    {
      din', b, ok := din, 0, true;
      var double := din.addrs[NDIRECT + 1];
      if double == 0 {
        if !alloc { return; }
        ok, din', double := FillSlot(inum, din, 12, bn);
        if !ok { return; }
      }
      var table;
      ok, table := Entry(inum, din', Outer(outer), double, outer, alloc, bn);
      if !ok || table == 0 { return; }
      ok, b := Entry(inum, din', Inner(outer, inner), table, inner, alloc, bn);
    }

    /** Entry j of a table, filled when empty and asked for. */
    method Entry(ghost inum: nat, ghost din: Dinode, ghost p: Pos, table: nat, j: nat, alloc: bool,
                 ghost bn: nat) returns (ok: bool, b: u32)
      requires Holds(inum, din) && ValidPos(p) && !p.Slot? && j == Index(p) < 128
        && table == Ptr(disk, din.addrs, Parent(p)) != 0 && Leads(p, bn, bn + 1)
      modifies `disk, `owner
      ensures Holds(inum, din) && Quiet(inum, din, din) && Adds(old(owner), owner, inum, bn, bn + 1)
      ensures ok ==> b == Ptr(disk, din.addrs, p) && (alloc ==> b != 0)
      ensures !alloc ==> ok && disk == old(disk) && owner == old(owner)
      ensures !ok ==> Full(disk, sb)
    {
      OwnedPtr(disk, Hand(disk, sb, inum, din), owner, DataStart(sb), sb.size, inum, Parent(p));
      PtrIsChild(disk, din.addrs, p);
      var buf := disk[table];
      b := Read32(buf, 4 * j);
      ok := true;
      if b == 0 && alloc {
        ok, b := FillEntry(inum, din, p, table, buf, j, bn);
      }
    }

    // ---- inodes ----

    /** Stores an inode; only a valid inode number is accepted. */
    method Iupdate(inum: int, din: Dinode) returns (ok: bool)
      requires Valid() && |din.addrs| == 13
      modifies `disk
      ensures ok <==> 0 < inum < sb.ninodes
      ensures !ok ==> disk == old(disk)
      ensures ok ==> Valid() && OutsideInodes(old(disk), disk, sb) && Stored(disk, sb) == Hand(old(disk), sb, inum, din)
    {
      if inum <= 0 || inum >= sb.ninodes {
        return false;
      }
      InodeInTable(sb, inum);
      ghost var before := disk;
      var block := InodeBlock(sb, inum);
      var buf := EncodeDinode(din, disk[block], InodeOff(inum));
      disk := disk[block := buf];
      UpdateSpec(before, sb, inum, din, buf);
      return true;
    }

    // ---- read and write ----

    /** The file's bytes from off on, at most n of them; holes read as zeros. */
    method Readi(ghost inum: nat, din: Dinode, off: nat, n: nat) returns (out: seq<u8>)
      requires Holds(inum, din) && din.size <= MAXBYTES
      modifies `disk, `owner
      ensures disk == old(disk) && owner == old(owner)
      ensures var s := Content(disk, din);
        out == if off > |s| then [] else s[off..if off + n < |s| then off + n else |s|]
    {
      if off > din.size {
        return [];
      }
      var end := if off + n < din.size then off + n else din.size;
      out := [];
      var pos := off;
      while pos < end
        invariant off <= pos <= end && |out| == pos - off && disk == old(disk) && owner == old(owner)
        invariant forall x :: 0 <= x < |out| ==> out[x] == Byte(disk, din.addrs, off + x)
      {
        var n, within, take := Chunk(pos, end - pos);
        var bytes := ReadChunk(inum, din, pos, n, within, take);
        ghost var before := out;
        out := out + bytes;
        RowGrows(disk, din.addrs, off, before, bytes);
        pos := pos + take;
      }
      RowIsContent(disk, din, off, out);
    }

    /** The part of [pos, pos + left) that falls in one block. */
    method Chunk(pos: nat, left: nat) returns (n: nat, within: nat, take: nat)
      requires left > 0
      ensures n == pos / 512 && within == pos % 512
      ensures 0 < take <= left && within + take <= 512 && (take == left || within + take == 512)
    {
      n, within := pos / 512, pos % 512;
      take := if 512 - within < left then 512 - within else left;
    }

    method ReadChunk(ghost inum: nat, din: Dinode, pos: nat, n: nat, within: nat, take: nat) returns (bytes: seq<u8>)
      requires Holds(inum, din) && n == pos / 512 && within == pos % 512 && within + take <= 512
        && pos + take <= MAXBYTES && 0 < take
      modifies `disk, `owner
      ensures disk == old(disk) && owner == old(owner)
      ensures |bytes| == take && forall x :: 0 <= x < take ==> bytes[x] == Byte(disk, din.addrs, pos + x)
    {
      var ok, same, block := Bmap(inum, din, n, false);
      OwnedPtr(disk, Hand(disk, sb, inum, din), owner, DataStart(sb), sb.size, inum, DataPos(n));
      bytes := if block != 0 then disk[block][within..within + take] else Zeros(take);
      forall x | 0 <= x < take ensures bytes[x] == Byte(disk, din.addrs, pos + x) {
        SameBlock(pos, x);
      }
    }

    /** The first bytes of data are in the file as the inode in hand has it; the stored inodes are as they were. */
    ghost predicate Partly(d: Disk, inum: nat, din: Dinode, din': Dinode, off: nat, data: seq<u8>, done: nat)
      reads this
    {
      && Holds(inum, din') && Geometry(sb) && Sized(d, sb) && |din.addrs| == 13 && din' == din.(addrs := din'.addrs)
      && SameInodes(d, disk, sb) && done <= |data|
      && Written(d, Hand(d, sb, inum, din), disk, Hand(disk, sb, inum, din'), inum, off, data, done)
    }

    /** Writes data at off, growing the file, and stores the inode. Fails only when the file would be too large or
        the disk is full; then the stored inodes are as they were, every other file reads the same, and of the
        file as the inode in hand has it, only the first bytes of data have been written. */
    method Writei(inum: nat, din: Dinode, off: nat, data: seq<u8>) returns (ok: bool, din': Dinode, ghost done: nat)
      requires Holds(inum, din) && Tidy(disk, sb, Hand(disk, sb, inum, din), owner)
      modifies `disk, `owner
      ensures off + |data| > MAXBYTES ==> !ok && disk == old(disk) && owner == old(owner) && din' == din
      ensures ok ==>
        din' == din.(addrs := din'.addrs, size := if off + |data| > din.size then off + |data| else din.size)
      ensures Adds(old(owner), owner, inum, off / 512, BlocksOf(off + |data|))
      ensures ok ==> Valid() && Tidy(disk, sb, Stored(disk, sb), owner)
      ensures ok ==> |din'.addrs| == 13 && din'.size <= MAXBYTES && Stored(disk, sb) == Hand(old(disk), sb, inum, din')
      ensures ok ==> Content(disk, din') == Overlaid(old(Content(disk, din)), off, data)
      ensures ok ==> OthersSame(old(disk), disk, Stored(disk, sb), inum)
      ensures ok && FreeEmpty(Hand(old(disk), sb, inum, din)) && din.kind != 0 ==> FreeEmpty(Stored(disk, sb))
      ensures !ok && off + |data| <= MAXBYTES ==>
        Valid() && Full(disk, sb) && done < |data| && Partly(old(disk), inum, din, din', off, data, done)
    {
      if off + |data| > MAXFILE * BSIZE {
        return false, din, 0;
      }
      ghost var d, own := disk, owner;
      ok, din', done := WriteBlocks(inum, din, off, data);
      if !ok { return; }
      ghost var d1, din1 := disk, din';
      if off + |data| > din'.size {
        din' := din'.(size := off + |data|);
      }
      var stored := Iupdate(inum, din');
      WriteFinished(d, d1, disk, sb, own, owner, inum, din, din1, din', off, data);
      if din.kind != 0 { FreeEmptyHand(d, sb, inum, din, din'); }
    }

    /** The part of a write that falls in one block. */
    method WriteChunk(ghost inum: nat, ghost din: Dinode, off: nat, data: seq<u8>, src: nat, take: nat,
                      ghost n: nat, within: nat, block: nat, ghost d: Disk, ghost t: Table)
      requires Holds(inum, din) && off + |data| <= MAXBYTES && 0 < take && src + take <= |data| && within + take <= 512
      requires n == (off + src) / 512 && within == (off + src) % 512 && n < 16523
      requires block == Ptr(disk, din.addrs, DataPos(n)) != 0
      requires Shaped(t) && |t| == sb.ninodes && Written(d, t, disk, Hand(disk, sb, inum, din), inum, off, data, src)
      modifies `disk
      ensures Holds(inum, din) && SameInodes(old(disk), disk, sb)
      ensures Written(d, t, disk, Hand(disk, sb, inum, din), inum, off, data, src + take)
    {
      ghost var d1, t1 := disk, Hand(disk, sb, inum, din);
      OwnedPtr(d1, t1, owner, DataStart(sb), sb.size, inum, DataPos(n));
      var buf := disk[block];
      buf := buf[..within] + data[src..src + take] + buf[within + take..];
      disk := disk[block := buf];
      BlockWritten(d1, disk, sb, owner, inum, din, n, block, buf);
      ChunkWritten(d, t, d1, disk, t1, inum, off, data, src, take, n, block, within, buf);
    }

    /** The loop of a write: block by block. */
    method WriteBlocks(ghost inum: nat, din: Dinode, off: nat, data: seq<u8>)
      returns (ok: bool, din': Dinode, ghost done: nat)
      requires Holds(inum, din) && off + |data| <= MAXBYTES
      modifies `disk, `owner
      ensures Holds(inum, din') && din' == din.(addrs := din'.addrs) && SameInodes(old(disk), disk, sb)
      ensures done <= |data| && (ok <==> done == |data|)
      ensures Written(old(disk), Hand(old(disk), sb, inum, din), disk, Hand(disk, sb, inum, din'), inum, off, data,
          done)
      ensures !ok ==> Full(disk, sb)
      ensures Adds(old(owner), owner, inum, off / 512, BlocksOf(off + |data|))
    {
      din' := din;
      ghost var d, t := disk, Hand(disk, sb, inum, din);
      var src := 0;
      while src < |data|
        invariant 0 <= src <= |data|
        invariant Holds(inum, din') && din' == din.(addrs := din'.addrs) && SameInodes(d, disk, sb)
        invariant Written(d, t, disk, Hand(disk, sb, inum, din'), inum, off, data, src)
        invariant Adds(old(owner), owner, inum, off / 512, BlocksOf(off + |data|))
      {
        var n, within, take := Chunk(off + src, |data| - src);
        ghost var d1, t1, own := disk, Hand(disk, sb, inum, din'), owner;
        var block;
        ok, din', block := Bmap(inum, din', n, true);
        BlockOf(off, src, |data|);
        AddsThen(old(owner), own, owner, inum, off / 512, BlocksOf(off + |data|), n, n + 1);
        WrittenSame(d, t, d1, t1, disk, Hand(disk, sb, inum, din'), inum, off, data, src);
        done := src;
        if !ok { return; }
        WriteChunk(inum, din', off, data, src, take, n, within, block, d, t);
        src := src + take;
      }
      ok, done := true, src;
    }

    // ---- truncation ----

    /** Frees the block at position p of inode inum, if there is one. */
    method FreeAt(b: nat, ghost d: Disk, ghost t: Table, ghost inum: nat, ghost done: set<Pos>, ghost p: Pos)
      requires Inv(d, sb, t, owner) && 1 <= inum < |t| && ValidPos(p) && b == Ptr(d, t[inum].addrs, p)
      requires Freed(d, disk, sb, owner, inum, done)
      modifies `disk
      ensures Freed(d, disk, sb, owner, inum, done + {p})
    {
      ghost var d1 := disk;
      if b != 0 {
        OwnedPtr(d, t, owner, DataStart(sb), sb.size, inum, p);
        Bfree(b);
        FreedOne(d, d1, disk, sb, t, owner, inum, done, p);
      } else {
        FreedEmpty(d, d1, sb, t, owner, inum, done, {p});
      }
    }

    method TruncDirect(din: Dinode, ghost d: Disk, ghost t: Table,
                       ghost inum: nat) returns (din': Dinode, ghost done: set<Pos>)
      requires Inv(d, sb, t, owner) && 1 <= inum < |t| && t[inum] == din && disk == d
      modifies `disk
      ensures Freed(d, disk, sb, owner, inum, done) && forall k :: 0 <= k < 11 ==> Slot(k) in done
      ensures din' == din.(addrs := din'.addrs) && |din'.addrs| == 13
      ensures forall k :: 0 <= k < 13 ==> din'.addrs[k] == if k < 11 then 0 else din.addrs[k]
    {
      din', done := din, {};
      FreedNothing(d, sb, owner, inum);
      var i := 0;
      while i < NDIRECT
        invariant 0 <= i <= 11 && Freed(d, disk, sb, owner, inum, done)
        invariant forall k :: 0 <= k < i ==> Slot(k) in done
        invariant din' == din.(addrs := din'.addrs) && |din'.addrs| == 13
        invariant forall k :: 0 <= k < 13 ==> din'.addrs[k] == if k < i then 0 else din.addrs[k]
      {
        FreeAt(din'.addrs[i], d, t, inum, done, Slot(i));
        done := done + {Slot(i)};
        din' := din'.(addrs := din'.addrs[i := 0]);
        i := i + 1;
      }
    }

    /** Frees what a table points to; o is the table's place when it is itself an entry. */
    method TruncTable(table: nat, ghost d: Disk, ghost t: Table, ghost inum: nat, ghost before: set<Pos>,
                      ghost q: Pos) returns (ghost done: set<Pos>)
      requires Inv(d, sb, t, owner) && 1 <= inum < |t| && (q == Slot(11) || (q.Outer? && ValidPos(q)))
      requires table == Ptr(d, t[inum].addrs, q) != 0 && Freed(d, disk, sb, owner, inum, before)
      modifies `disk
      ensures before <= done && Freed(d, disk, sb, owner, inum, done)
      ensures forall p :: ValidPos(p) && !p.Slot? && Parent(p) == q ==> p in done
    {
      done := before;
      FreedReads(d, disk, sb, t, owner, inum, done, inum, q);
      var ib := disk[table];
      var i := 0;
      while i < NINDIRECT
        invariant 0 <= i <= 128 && before <= done && Freed(d, disk, sb, owner, inum, done)
        invariant forall p :: ValidPos(p) && !p.Slot? && Parent(p) == q && Index(p) < i ==> p in done
      {
        ghost var p := if q == Slot(11) then Ind(i) else Inner(q.o, i);
        PtrIsChild(d, t[inum].addrs, p);
        FreeAt(Read32(ib, i * 4), d, t, inum, done, p);
        done := done + {p};
        OnlyChild(p, q, i);
        i := i + 1;
      }
    }

    method TruncDouble(table: nat, ghost d: Disk, ghost t: Table, ghost inum: nat,
                       ghost before: set<Pos>) returns (ghost done: set<Pos>)
      requires Inv(d, sb, t, owner) && 1 <= inum < |t|
      requires table == Ptr(d, t[inum].addrs, Slot(12)) != 0 && Freed(d, disk, sb, owner, inum, before)
      modifies `disk
      ensures before <= done && Freed(d, disk, sb, owner, inum, done)
      ensures forall p :: ValidPos(p) && (p.Outer? || p.Inner?) ==> p in done
    {
      done := before;
      FreedReads(d, disk, sb, t, owner, inum, done, inum, Slot(12));
      var dib := disk[table];
      var outer := 0;
      while outer < NINDIRECT
        invariant 0 <= outer <= 128 && before <= done && Freed(d, disk, sb, owner, inum, done)
        invariant forall p :: ValidPos(p) && (p.Outer? || p.Inner?) && p.o < outer ==> p in done
      {
        done := TruncOuter(Read32(dib, outer * 4), outer, d, t, inum, done);
        outer := outer + 1;
      }
    }

    /** One entry of the table of tables, and all below it. */
    method TruncOuter(indirect: nat, outer: nat, ghost d: Disk, ghost t: Table, ghost inum: nat,
                      ghost before: set<Pos>) returns (ghost done: set<Pos>)
      requires Inv(d, sb, t, owner) && 1 <= inum < |t| && outer < 128
      requires indirect == Ptr(d, t[inum].addrs, Outer(outer)) && Freed(d, disk, sb, owner, inum, before)
      modifies `disk
      ensures before <= done && Freed(d, disk, sb, owner, inum, done)
      ensures Outer(outer) in done && forall n :: 0 <= n < 128 ==> Inner(outer, n) in done
    {
      if indirect == 0 {
        ghost var none := set n | 0 <= n < 128 :: Inner(outer, n);
        FreedEmpty(d, disk, sb, t, owner, inum, before, none + {Outer(outer)});
        done := before + (none + {Outer(outer)});
      } else {
        done := TruncTable(indirect, d, t, inum, before, Outer(outer));
        assert forall n :: 0 <= n < 128 ==> Parent(Inner(outer, n)) == Outer(outer);
        FreeAt(indirect, d, t, inum, done, Outer(outer));
        done := done + {Outer(outer)};
      }
    }

    method TruncIndirect(table: nat, ghost d: Disk, ghost t: Table, ghost inum: nat,
                         ghost before: set<Pos>) returns (ghost done: set<Pos>)
      requires Inv(d, sb, t, owner) && 1 <= inum < |t|
      requires table == Ptr(d, t[inum].addrs, Slot(11)) && Freed(d, disk, sb, owner, inum, before)
      modifies `disk
      ensures before <= done && Freed(d, disk, sb, owner, inum, done)
      ensures Slot(11) in done && forall n :: 0 <= n < 128 ==> Ind(n) in done
    {
      if table == 0 {
        ghost var none := set n | 0 <= n < 128 :: Ind(n);
        FreedEmpty(d, disk, sb, t, owner, inum, before, none + {Slot(11)});
        done := before + (none + {Slot(11)});
      } else {
        done := TruncTable(table, d, t, inum, before, Slot(11));
        assert forall n :: 0 <= n < 128 ==> Parent(Ind(n)) == Slot(11);
        FreeAt(table, d, t, inum, done, Slot(11));
        done := done + {Slot(11)};
      }
    }

    method TruncDoubles(table: nat, ghost d: Disk, ghost t: Table, ghost inum: nat,
                        ghost before: set<Pos>) returns (ghost done: set<Pos>)
      requires Inv(d, sb, t, owner) && 1 <= inum < |t|
      requires table == Ptr(d, t[inum].addrs, Slot(12)) && Freed(d, disk, sb, owner, inum, before)
      modifies `disk
      ensures before <= done && Freed(d, disk, sb, owner, inum, done)
      ensures Slot(12) in done && forall p :: ValidPos(p) && (p.Outer? || p.Inner?) ==> p in done
    {
      if table == 0 {
        ghost var none := (set o | 0 <= o < 128 :: Outer(o)) + (set o, n | 0 <= o < 128 && 0 <= n < 128 :: Inner(o, n));
        FreedEmpty(d, disk, sb, t, owner, inum, before, none + {Slot(12)});
        done := before + (none + {Slot(12)});
      } else {
        done := TruncDouble(table, d, t, inum, before);
        FreeAt(table, d, t, inum, done, Slot(12));
        done := done + {Slot(12)};
      }
    }

    /** Frees exactly the inode's blocks and stores it empty. */
    method Itrunc(inum: nat, din: Dinode) returns (din': Dinode)
      requires Holds(inum, din) && Tidy(disk, sb, Hand(disk, sb, inum, din), owner)
      modifies `disk, `owner
      ensures Valid() && Empty(din') && din' == din.(addrs := din'.addrs, size := 0) && |din'.addrs| == 13
      ensures owner == Without(old(owner), inum)
      ensures Stored(disk, sb) == Hand(old(disk), sb, inum, din') && Tidy(disk, sb, Stored(disk, sb), owner)
      ensures Content(disk, din') == [] && OthersSame(old(disk), disk, Stored(disk, sb), inum)
      ensures FreeEmpty(Hand(old(disk), sb, inum, din)) ==> FreeEmpty(Stored(disk, sb))
    {
      ghost var d, t := disk, Hand(disk, sb, inum, din);
      ghost var done;
      din', done := TruncDirect(din, d, t, inum);
      done := TruncIndirect(din.addrs[NDIRECT], d, t, inum, done);
      done := TruncDoubles(din.addrs[NDIRECT + 1], d, t, inum, done);
      din' := din'.(addrs := din'.addrs[NDIRECT := 0][NDIRECT + 1 := 0], size := 0);
      EveryPosition(done);
      ghost var d1, t1 := disk, Hand(disk, sb, inum, din');
      HandSame(d, d1, sb, inum, din, din');
      Truncated(d, d1, sb, t, t1, owner, inum, done);
      owner := Without(owner, inum);
      var stored := Iupdate(inum, din');
      UpdateKeeps(d1, disk, sb, t1, owner);
      TidySame(d1, t1, disk, sb, owner);
      FreeEmptyHand(d, sb, inum, din, din');
    }

    // ---- allocating and freeing inodes ----

    /** What ialloc writes. */
    static function Fresh(kind: u16): (din: Dinode)
      ensures |din.addrs| == 13 && Empty(din) && din.size == 0 && din.kind == kind
      ensures din.nlink == din.uid == din.gid == 0 && din.atime == din.mtime == din.ctime == 0
      ensures din.mode % 4096 == (if kind == 1 then 493 else if kind == 3 then 511 else 420)
      ensures din.mode / 4096 == (if kind == 1 then 4 else if kind == 3 then 10 else 8)
    {
      var mode := if kind == 1 then 0x41ED else if kind == 3 then 0xA1FF else 0x81A4;
      Dinode(kind, 0, mode, 0, 0, 0, 0, 0, 0, seq(13, i => 0))
    }

    /** Takes the first free inode; fails when none is left. */
    method Ialloc(kind: u16) returns (ok: bool, inum: nat)
      requires Valid() && Tidy(disk, sb, Stored(disk, sb), owner) && FreeEmpty(Stored(disk, sb)) && kind != 0
      modifies `disk
      ensures ok ==> 1 <= inum < sb.ninodes && old(Inode(disk, sb, inum).kind) == 0
      ensures ok ==> forall j :: 1 <= j < inum ==> old(Inode(disk, sb, j).kind) != 0
      ensures ok ==> Valid() && Stored(disk, sb) == Hand(old(disk), sb, inum, Fresh(kind))
      ensures ok ==> Tidy(disk, sb, Stored(disk, sb), owner) && FreeEmpty(Stored(disk, sb))
      ensures ok ==> OthersSame(old(disk), disk, Stored(disk, sb), inum) && OutsideInodes(old(disk), disk, sb)
      ensures !ok ==> disk == old(disk) && forall j :: 1 <= j < sb.ninodes ==> Inode(disk, sb, j).kind != 0
    {
      inum := 1;
      while inum < sb.ninodes
        invariant 1 <= inum && disk == old(disk)
        invariant forall j :: 1 <= j < inum && j < sb.ninodes ==> Inode(disk, sb, j).kind != 0
      {
        InodeInTable(sb, inum);
        if DecodeDinode(disk[InodeBlock(sb, inum)], InodeOff(inum)).kind == 0 {
          ghost var d := disk;
          assert Stored(d, sb)[inum].kind == 0;
          ok := Iupdate(inum, Fresh(kind));
          FreshInode(d, disk, sb, owner, inum, Fresh(kind));
          HandOfStored(d, sb, inum);
          FreeEmptyHand(d, sb, inum, Inode(d, sb, inum), Fresh(kind));
          return;
        }
        inum := inum + 1;
      }
      return false, 0;
    }

    /** Truncates the inode and marks it free. */
    method Ifree(inum: nat, din: Dinode) returns (din': Dinode)
      requires Holds(inum, din) && Tidy(disk, sb, Hand(disk, sb, inum, din), owner)
        && FreeEmpty(Hand(disk, sb, inum, din))
      modifies `disk, `owner
      ensures Valid() && Tidy(disk, sb, Stored(disk, sb), owner) && FreeEmpty(Stored(disk, sb))
      ensures |din'.addrs| == 13 && Empty(din') && Stored(disk, sb) == Hand(old(disk), sb, inum, din')
      ensures din' == din.(kind := 0, nlink := 0, mode := 0, size := 0, addrs := din'.addrs)
      ensures owner == Without(old(owner), inum) && OthersSame(old(disk), disk, Stored(disk, sb), inum)
    {
      ghost var d := disk;
      din' := Itrunc(inum, din);
      ghost var d1, emptied := disk, din';
      assert Stored(d1, sb)[inum] == emptied;
      din' := din'.(kind := 0, nlink := 0, mode := 0);
      var stored := Iupdate(inum, din');
      FreshInode(d1, disk, sb, owner, inum, din');
      FreedChain(d, d1, disk, sb, inum, din, emptied, din');
      FreeEmptyHand(d, sb, inum, din, din');
    }

    // ---- format and mount ----

    static function Layout(size: u32, ninodes: u32): (s: Superblock)
      requires 2 + CeilDiv(ninodes, 6) < 0x1_0000_0000
      ensures s.magic == FSMAGIC && s.version == FS_VERSION && s.inodeSize == DINODE_SIZE
      ensures s.size == size && s.ninodes == ninodes && s.inodestart == 2
      ensures ninodes <= 6 * (s.bmapstart - s.inodestart) < ninodes + 6
      ensures size <= 4096 * (DataStart(s) - s.bmapstart) < size + 4096
    {
      Superblock(FSMAGIC, size, ninodes, 2, 2 + CeilDiv(ninodes, 6), FS_VERSION, DINODE_SIZE)
    }

    /** Formats the disk and takes inode 1 for the root, still without entries. */
    method Format(ninodes: u32)
      requires |disk| < 0x1_0000_0000 && ninodes >= 2 && 2 + CeilDiv(ninodes, 6) < 0x1_0000_0000
      requires DataStart(Layout(|disk|, ninodes)) <= |disk|
      modifies this
      ensures Valid() && sb == Layout(old(|disk|), ninodes) && DecodeSuperblock(disk[1]) == sb
      ensures owner == map[] && Tidy(disk, sb, Stored(disk, sb), owner) && FreeEmpty(Stored(disk, sb))
      ensures Stored(disk, sb)[1] == Fresh(1).(nlink := 2)
      ensures forall j :: 2 <= j < sb.ninodes ==> Stored(disk, sb)[j].kind == 0
    {
      Erase(ninodes);
      var ok := MakeRoot();
    }

    /** Zeroes the disk, writes the superblock and marks the metadata. */
    method Erase(ninodes: u32)
      requires |disk| < 0x1_0000_0000 && ninodes >= 2 && 2 + CeilDiv(ninodes, 6) < 0x1_0000_0000
      requires DataStart(Layout(|disk|, ninodes)) <= |disk|
      modifies this
      ensures Valid() && sb == Layout(old(|disk|), ninodes) && DecodeSuperblock(disk[1]) == sb
      ensures owner == map[] && Tidy(disk, sb, Stored(disk, sb), owner) && FreeEmpty(Stored(disk, sb))
      ensures forall j :: 0 <= j < sb.ninodes ==> Inode(disk, sb, j).kind == 0
    {
      ZeroDisk();
      sb := Layout(|disk|, ninodes);
      owner := map[];
      var buf := EncodeSuperblock(sb);
      disk := disk[1 := buf];
      Blank(disk, sb);
      MarkMetadata();
      BlankTidy(disk, sb);
    }

    method MakeRoot() returns (ok: bool)
      requires Valid() && Tidy(disk, sb, Stored(disk, sb), owner) && FreeEmpty(Stored(disk, sb)) && sb.ninodes >= 2
      requires Inode(disk, sb, 1).kind == 0
      modifies `disk
      ensures ok && Valid() && Tidy(disk, sb, Stored(disk, sb), owner) && FreeEmpty(Stored(disk, sb))
      ensures Stored(disk, sb) == Hand(old(disk), sb, 1, Fresh(1).(nlink := 2)) && disk[1] == old(disk[1])
    {
      ghost var d := disk;
      var root;
      ok, root := Ialloc(1);
      ghost var d1 := disk;
      assert root == 1 by { assert Inode(d, sb, 1).kind == 0; }
      assert Stored(d1, sb)[1] == Fresh(1);
      var din := Inode(disk, sb, 1).(nlink := 2, mode := 0x41ED);
      ok := Iupdate(1, din);
      FreshInode(d1, disk, sb, owner, 1, din);
      RootChain(d, d1, sb, din);
      FreeEmptyHand(d1, sb, 1, Inode(d1, sb, 1), din);
    }

    method ZeroDisk()
      modifies `disk
      ensures |disk| == old(|disk|) && forall b :: 0 <= b < |disk| ==> disk[b] == Zeros(512)
    {
      var b := 0;
      while b < |disk|
        invariant 0 <= b <= |disk| == old(|disk|)
        invariant forall c :: 0 <= c < b ==> disk[c] == Zeros(512)
      {
        disk := disk[b := Zeros(512)];
        b := b + 1;
      }
    }

    method MarkMetadata()
      requires Valid() && forall c :: 0 <= c < sb.size ==> !Bit(disk, sb, c)
      modifies `disk
      ensures Valid() && OnlyBitmap(old(disk), disk, sb)
      ensures forall c :: 0 <= c < sb.size ==> (Bit(disk, sb, c) <==> c < DataStart(sb))
    {
      var b := 0;
      while b < DataStart(sb)
        invariant 0 <= b <= DataStart(sb) && Valid() && OnlyBitmap(old(disk), disk, sb)
        invariant forall c :: 0 <= c < sb.size ==> (Bit(disk, sb, c) <==> c < b)
      {
        SetBit(b, true);
        b := b + 1;
      }
    }

    /** Accepts a disk whose superblock is of this version. */
    method Mount() returns (ok: bool)
      requires |disk| >= 2 && |disk[1]| == 512
      modifies `sb
      ensures sb == DecodeSuperblock(disk[1])
      ensures ok <==> sb.magic == FSMAGIC && sb.version == FS_VERSION && sb.inodeSize == DINODE_SIZE
    {
      sb := DecodeSuperblock(disk[1]);
      ok := sb.magic == FSMAGIC && sb.version == FS_VERSION && sb.inodeSize == DINODE_SIZE;
    }
  }
}
