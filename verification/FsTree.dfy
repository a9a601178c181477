/** The block tree of an inode: eleven direct blocks, one table of blocks, one table of tables.

    Every pointer an inode can reach has a position. The invariant keeps, for each block in use, the
    one position that points to it, and marks exactly those blocks and the metadata in the bitmap. A
    file is read as an unending row of bytes in which holes are zero. */
module FsTree {
  import opened Bytes
  import opened Words
  import opened FsLayout

  datatype Pos = Slot(k: nat) | Ind(j: nat) | Outer(o: nat) | Inner(o: nat, n: nat)

  predicate ValidPos(p: Pos) {
    match p
    case Slot(k) => k < 13
    case Ind(j) => j < 128
    case Outer(o) => o < 128
    case Inner(o, n) => o < 128 && n < 128
  }

  /** Positions of data blocks; the others hold tables. */
  predicate IsData(p: Pos) {
    match p
    case Slot(k) => k < 11
    case Ind(_) => true
    case Outer(_) => false
    case Inner(_, _) => true
  }

  /** Entry j of the table in block b; 0 stands for no block. */
  function Child(d: Disk, b: nat, j: nat): u32
    requires j < 128
  {
    if b == 0 || b >= |d| || |d[b]| != 512 then 0 else Read32(d[b], 4 * j)
  }

  function Ptr(d: Disk, a: seq<u32>, p: Pos): u32
    requires |a| == 13 && ValidPos(p)
  {
    match p
    case Slot(k) => a[k]
    case Ind(j) => Child(d, a[11], j)
    case Outer(o) => Child(d, a[12], o)
    case Inner(o, n) => Child(d, Child(d, a[12], o), n)
  }

  /** The position of file block n. */
  function DataPos(n: nat): (p: Pos)
    requires n < 16523
    ensures ValidPos(p) && IsData(p)
  {
    if n < 11 then Slot(n)
    else if n < 139 then Ind(n - 11)
    else Inner((n - 139) / 128, (n - 139) % 128)
  }

  lemma DataPosInjective(m: nat, n: nat)
    requires m < 16523 && n < 16523 && DataPos(m) == DataPos(n)
    ensures m == n
  {
  }

  type Table = seq<Dinode>

  datatype Owner = Owner(inum: nat, pos: Pos)

  predicate Shaped(t: Table) {
    forall i :: 0 <= i < |t| ==> |t[i].addrs| == 13
  }

  /** Each pointer's block names it as its owner, and each owned block is what its owner points to. */
  ghost predicate Owned(d: Disk, t: Table, own: map<nat, Owner>, lo: nat, hi: nat)
    requires Shaped(t)
  {
    && (forall i, p :: 1 <= i < |t| && ValidPos(p) && Ptr(d, t[i].addrs, p) != 0 ==>
        Ptr(d, t[i].addrs, p) in own && own[Ptr(d, t[i].addrs, p)] == Owner(i, p))
    && (forall b {:trigger Holder(d, t, own[b])} :: b in own ==> lo <= b < hi && Holder(d, t, own[b]) == b)
  }

  /** What the owner points to. */
  ghost function Holder(d: Disk, t: Table, w: Owner): nat
    requires Shaped(t)
  {
    if 1 <= w.inum < |t| && ValidPos(w.pos) then Ptr(d, t[w.inum].addrs, w.pos) else 0
  }

  ghost predicate Marked(d: Disk, sb: Superblock, own: map<nat, Owner>)
    requires Geometry(sb) && Sized(d, sb)
  {
    forall b {:trigger Bit(d, sb, b)} :: 0 <= b < sb.size ==> (Bit(d, sb, b) <==> b < DataStart(sb) || b in own)
  }

  ghost predicate Inv(d: Disk, sb: Superblock, t: Table, own: map<nat, Owner>) {
    && Geometry(sb) && Sized(d, sb) && |t| == sb.ninodes && Shaped(t)
    && Owned(d, t, own, DataStart(sb), sb.size)
    && Marked(d, sb, own)
  }

  lemma OwnedPtr(d: Disk, t: Table, own: map<nat, Owner>, lo: nat, hi: nat, i: nat, p: Pos)
    requires Shaped(t) && Owned(d, t, own, lo, hi) && 1 <= i < |t| && ValidPos(p)
    ensures var b := Ptr(d, t[i].addrs, p); b != 0 ==> b in own && own[b] == Owner(i, p) && lo <= b < hi
  {
    var b := Ptr(d, t[i].addrs, p);
    if b != 0 { assert Holder(d, t, own[b]) == b; }
  }

  lemma OwnedBlock(d: Disk, t: Table, own: map<nat, Owner>, lo: nat, hi: nat, b: nat)
    requires Shaped(t) && Owned(d, t, own, lo, hi) && b in own && 0 < lo
    ensures lo <= b < hi && 1 <= own[b].inum < |t| && ValidPos(own[b].pos)
    ensures Ptr(d, t[own[b].inum].addrs, own[b].pos) == b
  {
    assert Holder(d, t, own[b]) == b;
  }

  /** No block belongs to two positions, of one inode or of two, and none is metadata. */
  lemma NoSharing(d: Disk, t: Table, own: map<nat, Owner>, lo: nat, hi: nat, i: nat, p: Pos, i': nat, p': Pos)
    requires Shaped(t) && Owned(d, t, own, lo, hi) && 1 <= i < |t| && 1 <= i' < |t| && ValidPos(p) && ValidPos(p')
    requires Ptr(d, t[i].addrs, p) == Ptr(d, t[i'].addrs, p') != 0
    ensures i == i' && p == p' && lo <= Ptr(d, t[i].addrs, p) < hi
  {
    OwnedPtr(d, t, own, lo, hi, i, p);
    OwnedPtr(d, t, own, lo, hi, i', p');
  }

  // ---- new blocks ----

  /** A position on the way to some file block from lo up to hi: the block's own, or that of a table over it. */
  predicate Leads(p: Pos, lo: nat, hi: nat) {
    lo < hi &&
    match p
    case Slot(k) => if k < 11 then lo <= k < hi else if k == 11 then lo < 139 && hi > 11 else hi > 139
    case Ind(j) => lo <= 11 + j < hi
    case Outer(o) => lo < 139 + 128 * (o + 1) && 139 + 128 * o < hi
    case Inner(o, n) => lo <= 139 + 128 * o + n < hi
  }

  /** Every block belongs where it did, and new ones are on the way to blocks lo to hi of inode i. */
  ghost predicate Adds(own: map<nat, Owner>, own': map<nat, Owner>, i: nat, lo: nat, hi: nat) {
    && (forall c :: c in own ==> c in own' && own'[c] == own[c])
    && (forall c :: c in own' && c !in own ==> own'[c].inum == i && Leads(own'[c].pos, lo, hi))
  }

  lemma AddsThen(own: map<nat, Owner>, own1: map<nat, Owner>, own2: map<nat, Owner>, i: nat, lo: nat, hi: nat, lo': nat,
                 hi': nat)
    requires Adds(own, own1, i, lo, hi) && Adds(own1, own2, i, lo', hi') && lo <= lo' && hi' <= hi
    ensures Adds(own, own2, i, lo, hi)
  {
    forall c | c in own2 && c !in own ensures own2[c].inum == i && Leads(own2[c].pos, lo, hi) {
      if c in own1 { assert own2[c] == own1[c]; } else { assert Leads(own2[c].pos, lo', hi'); }
    }
  }

  lemma AddsOne(own: map<nat, Owner>, b: nat, i: nat, p: Pos, n: nat)
    requires b !in own && Leads(p, n, n + 1)
    ensures Adds(own, own[b := Owner(i, p)], i, n, n + 1)
  {
  }

  /** An unmarked block is no one's. */
  lemma Unmarked(d: Disk, sb: Superblock, t: Table, own: map<nat, Owner>, b: nat)
    requires Inv(d, sb, t, own) && b < sb.size && !Bit(d, sb, b)
    ensures b !in own
  {
  }

  /** The number of blocks that n bytes reach into. */
  function BlocksOf(n: nat): nat { (n + 511) / 512 }

  lemma BlockOf(off: nat, x: nat, n: nat)
    requires x < n
    ensures off / 512 <= (off + x) / 512 < BlocksOf(off + n)
  {
  }

  // ---- bytes of a file ----

  const MAXBYTES := 8459776

  /** Byte x of the file, zero in holes. */
  function Byte(d: Disk, a: seq<u32>, x: nat): u8
    requires |a| == 13 && x < 8459776
  {
    DataBlock(d, Ptr(d, a, DataPos(x / 512)), x % 512)
  }

  function DataBlock(d: Disk, b: nat, w: nat): u8
    requires w < 512
  {
    if b == 0 || b >= |d| || |d[b]| != 512 then 0 else d[b][w]
  }

  /** All files read the same, to the end of what a file can hold. */
  ghost predicate SameBytes(d: Disk, t: Table, d': Disk, t': Table)
    requires Shaped(t) && Shaped(t') && |t| == |t'|
  {
    forall i, x :: 1 <= i < |t| && 0 <= x < 8459776 ==> Byte(d', t'[i].addrs, x) == Byte(d, t[i].addrs, x)
  }

  // ---- frames ----

  lemma ChildDepends(d: Disk, d': Disk, b: nat, j: nat)
    requires j < 128 && |d'| == |d| && (0 < b < |d| ==> d'[b] == d[b])
    ensures Child(d', b, j) == Child(d, b, j)
  {
  }

  /** A pointer depends on the tables above it only. */
  lemma PtrDepends(d: Disk, d': Disk, a: seq<u32>, p: Pos)
    requires |a| == 13 && ValidPos(p) && |d'| == |d|
    requires forall q :: ValidPos(q) && !IsData(q) && 0 < Ptr(d, a, q) < |d| ==> d'[Ptr(d, a, q)] == d[Ptr(d, a, q)]
    ensures Ptr(d', a, p) == Ptr(d, a, p)
  {
    match p
    case Slot(_) =>
    case Ind(j) => assert Ptr(d, a, Slot(11)) == a[11]; ChildDepends(d, d', a[11], j);
    case Outer(o) => assert Ptr(d, a, Slot(12)) == a[12]; ChildDepends(d, d', a[12], o);
    case Inner(o, n) =>
      assert Ptr(d, a, Slot(12)) == a[12]; ChildDepends(d, d', a[12], o);
      assert Ptr(d, a, Outer(o)) == Child(d, a[12], o); ChildDepends(d, d', Child(d, a[12], o), n);
  }

  /** Blocks in use are kept from d to d'. */
  ghost predicate Keeps(d: Disk, d': Disk, own: map<nat, Owner>) {
    |d'| == |d| && forall b :: 0 <= b < |d| && b in own ==> d'[b] == d[b]
  }

  lemma KeepsPointers(d: Disk, d': Disk, t: Table, own: map<nat, Owner>, lo: nat, hi: nat, i: nat, p: Pos)
    requires Shaped(t) && Owned(d, t, own, lo, hi) && Keeps(d, d', own) && 1 <= i < |t| && ValidPos(p)
    ensures Ptr(d', t[i].addrs, p) == Ptr(d, t[i].addrs, p)
  {
    PtrDepends(d, d', t[i].addrs, p);
  }

  lemma KeepsBytes(d: Disk, d': Disk, t: Table, own: map<nat, Owner>, lo: nat, hi: nat, i: nat, x: nat)
    requires Shaped(t) && Owned(d, t, own, lo, hi) && Keeps(d, d', own) && 1 <= i < |t| && x < 8459776
    ensures Byte(d', t[i].addrs, x) == Byte(d, t[i].addrs, x)
  {
    KeepsPointers(d, d', t, own, lo, hi, i, DataPos(x / 512));
  }

  /** Every pointer is as it was, but the one at (i, p), which is now b. */
  ghost predicate Moved(d: Disk, t: Table, d': Disk, t': Table, i: nat, p: Pos, b: nat)
    requires Shaped(t) && Shaped(t') && |t| == |t'|
  {
    forall i', p' {:trigger Ptr(d', t'[i'].addrs, p')} :: 1 <= i' < |t| && ValidPos(p') ==>
      Ptr(d', t'[i'].addrs, p') as int == if i' == i && p' == p then b else Ptr(d, t[i'].addrs, p')
  }

  lemma MovedOwns(d: Disk, t: Table, d': Disk, t': Table, own: map<nat, Owner>, own': map<nat, Owner>, lo: nat, hi: nat,
                  i: nat, p: Pos, b: nat)
    requires Shaped(t) && Shaped(t') && |t| == |t'| && Owned(d, t, own, lo, hi)
    requires Moved(d, t, d', t', i, p, b) && 1 <= i < |t| && ValidPos(p) && Ptr(d, t[i].addrs, p) == 0
    requires b !in own && 0 < lo <= b < hi && own' == own[b := Owner(i, p)]
    ensures Owned(d', t', own', lo, hi)
  {
    forall i', p' | 1 <= i' < |t| && ValidPos(p') && Ptr(d', t'[i'].addrs, p') != 0
      ensures Ptr(d', t'[i'].addrs, p') in own' && own'[Ptr(d', t'[i'].addrs, p')] == Owner(i', p')
    {
      OwnedPtr(d, t, own, lo, hi, i', p');
    }
    forall c | c in own' ensures lo <= c < hi && Holder(d', t', own'[c]) == c {
      if c != b { OwnedBlock(d, t, own, lo, hi, c); }
    }
  }

  lemma SamePtrsOwn(d: Disk, t: Table, d': Disk, t': Table, own: map<nat, Owner>, lo: nat, hi: nat)
    requires Shaped(t) && Shaped(t') && |t| == |t'| && Owned(d, t, own, lo, hi) && 0 < lo
    requires forall i, p :: 1 <= i < |t| && ValidPos(p) ==> Ptr(d', t'[i].addrs, p) == Ptr(d, t[i].addrs, p)
    ensures Owned(d', t', own, lo, hi)
  {
    forall i, p | 1 <= i < |t| && ValidPos(p) && Ptr(d', t'[i].addrs, p) != 0
      ensures Ptr(d', t'[i].addrs, p) in own && own[Ptr(d', t'[i].addrs, p)] == Owner(i, p)
    {
      OwnedPtr(d, t, own, lo, hi, i, p);
    }
    forall c | c in own ensures lo <= c < hi && Holder(d', t', own[c]) == c {
      OwnedBlock(d, t, own, lo, hi, c);
    }
  }

  /** Changing nothing in use changes no pointer and no file. */
  lemma KeepsAll(d: Disk, d': Disk, t: Table, own: map<nat, Owner>, lo: nat, hi: nat)
    requires Shaped(t) && Owned(d, t, own, lo, hi) && Keeps(d, d', own) && 0 < lo
    ensures Owned(d', t, own, lo, hi) && SameBytes(d, t, d', t)
  {
    forall i, p | 1 <= i < |t| && ValidPos(p) ensures Ptr(d', t[i].addrs, p) == Ptr(d, t[i].addrs, p) {
      KeepsPointers(d, d', t, own, lo, hi, i, p);
    }
    SamePtrsOwn(d, t, d', t, own, lo, hi);
    forall i, x | 1 <= i < |t| && 0 <= x < 8459776 ensures Byte(d', t[i].addrs, x) == Byte(d, t[i].addrs, x) {
      KeepsBytes(d, d', t, own, lo, hi, i, x);
    }
  }

  // ---- a fresh block at a position ----

  ghost predicate ZeroBlock(d: Disk, b: nat) {
    b < |d| && |d[b]| == 512 && forall w :: 0 <= w < 512 ==> d[b][w] == 0
  }

  lemma ZeroChild(d: Disk, b: nat, j: nat)
    requires ZeroBlock(d, b) && j < 128
    ensures Child(d, b, j) == 0
  {
  }

  /** A zeroed block put in an empty slot of the inode. */
  lemma SlotMoved(d: Disk, t: Table, d': Disk, t': Table, own: map<nat, Owner>, lo: nat, hi: nat, i: nat, k: nat,
                  b: u32, i': nat, p': Pos)
    requires Shaped(t) && Owned(d, t, own, lo, hi) && Keeps(d, d', own) && ZeroBlock(d', b) && 0 < lo
    requires 1 <= i < |t| && k < 13 && t[i].addrs[k] == 0
    requires |t'| == |t| && t'[i].addrs == t[i].addrs[k := b] && forall j :: 0 <= j < |t| && j != i ==> t'[j] == t[j]
    requires Shaped(t') && 1 <= i' < |t| && ValidPos(p')
    ensures Ptr(d', t'[i'].addrs, p') == if i' == i && p' == Slot(k) then b else Ptr(d, t[i'].addrs, p')
  {
    KeepsPointers(d, d', t, own, lo, hi, i', p');
    if i' == i {
      match p'
      case Slot(_) =>
      case Ind(j) => if k == 11 { ZeroChild(d', b, j); }
      case Outer(o) => if k == 12 { ZeroChild(d', b, o); }
      case Inner(o, n) => if k == 12 { ZeroChild(d', b, o); }
    }
  }

  /** The table above a position, and its place in that table. */
  function Parent(p: Pos): Pos
    requires !p.Slot?
  {
    match p
    case Ind(_) => Slot(11)
    case Outer(_) => Slot(12)
    case Inner(o, _) => Outer(o)
  }

  function Index(p: Pos): nat
    requires !p.Slot?
  {
    match p
    case Ind(j) => j
    case Outer(o) => o
    case Inner(_, n) => n
  }

  lemma PtrIsChild(d: Disk, a: seq<u32>, p: Pos)
    requires |a| == 13 && ValidPos(p) && !p.Slot?
    ensures ValidPos(Parent(p)) && !IsData(Parent(p)) && Index(p) < 128
    ensures Ptr(d, a, p) == Child(d, Ptr(d, a, Parent(p)), Index(p))
  {
  }

  lemma ParentIndex(p: Pos, q: Pos)
    requires ValidPos(p) && ValidPos(q) && !p.Slot? && !q.Slot? && Parent(p) == Parent(q) && Index(p) == Index(q)
    ensures p == q
  {
  }

  lemma EveryPosition(done: set<Pos>)
    requires forall k :: 0 <= k < 11 ==> Slot(k) in done
    requires Slot(11) in done && Slot(12) in done && forall n :: 0 <= n < 128 ==> Ind(n) in done
    requires forall p :: ValidPos(p) && (p.Outer? || p.Inner?) ==> p in done
    ensures forall p :: ValidPos(p) ==> p in done
  {
    forall p | ValidPos(p) ensures p in done {
      match p
      case Slot(k) => if k < 11 { assert Slot(k) in done; }
      case Ind(j) => assert Ind(j) in done;
      case Outer(_) =>
      case Inner(_, _) =>
    }
  }

  lemma OnlyChild(p: Pos, q: Pos, i: nat)
    requires ValidPos(p) && !p.Slot? && Parent(p) == q && Index(p) == i
    ensures forall r :: ValidPos(r) && !r.Slot? && Parent(r) == q && Index(r) < i + 1 ==> Index(r) < i || r == p
  {
  }

  /** Writing entry j of table b changes that entry only. */
  lemma EntryWritten(d: Disk, d': Disk, b: nat, j: nat, v: u32, c: nat, k: nat)
    requires 0 < b < |d| && |d[b]| == 512 && j < 128 && k < 128 && |d'| == |d|
    requires d'[b] == Write32(d[b], 4 * j, v) && (0 < c < |d| && c != b ==> d'[c] == d[c])
    ensures Child(d', c, k) == if c == b && k == j then v else Child(d, c, k)
  {
    WriteRead(d[b], 4 * j, v);
    if c == b && k != j { WriteElsewhere(d[b], 4 * j, v, 4 * k); }
  }

  ghost predicate EntryFilled(d: Disk, d1: Disk, d': Disk, own: map<nat, Owner>, tb: nat, j: nat, b: u32) {
    && Keeps(d, d1, own) && ZeroBlock(d1, b) && b !in own && b != 0
    && tb in own && 0 < tb < |d| && |d[tb]| == 512 && j < 128
    && |d'| == |d| && d'[tb] == Write32(d1[tb], 4 * j, b)
    && forall c :: 0 <= c < |d| && c != tb ==> d'[c] == d1[c]
  }

  /** Entries of tables in use, before and after. */
  lemma ChildFilled(d: Disk, d1: Disk, d': Disk, own: map<nat, Owner>, tb: nat, j: nat, b: u32, c: nat, k: nat)
    requires EntryFilled(d, d1, d', own, tb, j, b) && k < 128 && (c == 0 || c in own)
    ensures Child(d', c, k) == if c == tb && k == j then b else Child(d, c, k)
  {
    EntryWritten(d1, d', tb, j, b, c, k);
    ChildDepends(d, d1, c, k);
  }

  lemma FreshChild(d: Disk, d1: Disk, d': Disk, own: map<nat, Owner>, tb: nat, j: nat, b: u32, k: nat)
    requires EntryFilled(d, d1, d', own, tb, j, b) && k < 128
    ensures Child(d', b, k) == 0
  {
    ZeroChild(d1, b, k);
  }

  /** A zeroed block put in an empty entry of a table. */
  lemma EntryMoved(d: Disk, t: Table, d1: Disk, d': Disk, own: map<nat, Owner>, lo: nat, hi: nat, i: nat, p: Pos,
                   b: u32, i': nat, p': Pos)
    requires Shaped(t) && Owned(d, t, own, lo, hi) && 0 < lo && 1 <= i < |t| && ValidPos(p) && !p.Slot?
    requires Ptr(d, t[i].addrs, p) == 0 && EntryFilled(d, d1, d', own, Ptr(d, t[i].addrs, Parent(p)), Index(p), b)
    requires 1 <= i' < |t| && ValidPos(p')
    ensures Ptr(d', t[i'].addrs, p') == if i' == i && p' == p then b else Ptr(d, t[i'].addrs, p')
    decreases if p'.Inner? then 2 else if p'.Slot? then 0 else 1
  {
    if !p'.Slot? {
      var a, a' := t[i].addrs, t[i'].addrs;
      var q' := Parent(p');
      var tb, c := Ptr(d, a, Parent(p)), Ptr(d, a', q');
      PtrIsChild(d, a, p); PtrIsChild(d, a', p'); PtrIsChild(d', a', p');
      OwnedPtr(d, t, own, lo, hi, i, Parent(p));
      OwnedPtr(d, t, own, lo, hi, i', q');
      EntryMoved(d, t, d1, d', own, lo, hi, i, p, b, i', q');
      if i' == i && q' == p {
        FreshChild(d, d1, d', own, tb, Index(p), b, Index(p'));
      } else {
        ChildFilled(d, d1, d', own, tb, Index(p), b, c, Index(p'));
        if i' == i && q' == Parent(p) && Index(p') == Index(p) { ParentIndex(p, p'); }
      }
    }
  }

  /** With data blocks kept and the new block zero, files read as before. */
  lemma MovedBytes(d: Disk, t: Table, d': Disk, t': Table, own: map<nat, Owner>, lo: nat, hi: nat, i: nat, p: Pos,
                   b: nat)
    requires Shaped(t) && Shaped(t') && |t| == |t'| && Owned(d, t, own, lo, hi) && |d'| == |d|
    requires Moved(d, t, d', t', i, p, b) && 1 <= i < |t| && ValidPos(p) && Ptr(d, t[i].addrs, p) == 0
    requires ZeroBlock(d', b)
    requires forall c :: 0 <= c < |d| && c in own && IsData(own[c].pos) ==> d'[c] == d[c]
    ensures SameBytes(d, t, d', t')
  {
    forall i', x | 1 <= i' < |t| && 0 <= x < 8459776 ensures Byte(d', t'[i'].addrs, x) == Byte(d, t[i'].addrs, x) {
      OwnedPtr(d, t, own, lo, hi, i', DataPos(x / 512));
      assert Ptr(d', t'[i'].addrs, DataPos(x / 512)) as int
        == if i' == i && DataPos(x / 512) == p then b else Ptr(d, t[i'].addrs, DataPos(x / 512));
    }
  }

  // ---- writing a data block ----

  /** Every byte of every file is as it was, but those of file block n of inode i. */
  ghost predicate BlockReplaced(d: Disk, d': Disk, t: Table, i: nat, n: nat, buf: seq<u8>)
    requires Shaped(t) && |buf| == 512
  {
    forall i', x {:trigger Byte(d', t[i'].addrs, x)} :: 1 <= i' < |t| && 0 <= x < 8459776 ==>
      Byte(d', t[i'].addrs, x) == if i' == i && x / 512 == n then buf[x % 512] else Byte(d, t[i'].addrs, x)
  }

  lemma DataWritten(d: Disk, d': Disk, t: Table, own: map<nat, Owner>, lo: nat, hi: nat, c: nat, i: nat, n: nat)
    requires Shaped(t) && Owned(d, t, own, lo, hi) && 0 < lo && 1 <= i < |t| && n < 16523
    requires c == Ptr(d, t[i].addrs, DataPos(n)) && 0 < c < |d| && |d'| == |d| && |d'[c]| == 512
    requires forall b :: 0 <= b < |d| && b != c ==> d'[b] == d[b]
    ensures Owned(d', t, own, lo, hi) && BlockReplaced(d, d', t, i, n, d'[c])
  {
    forall i', p' | 1 <= i' < |t| && ValidPos(p') ensures Ptr(d', t[i'].addrs, p') == Ptr(d, t[i'].addrs, p') {
      DataKeepsPointer(d, d', t, own, lo, hi, c, i, n, i', p');
    }
    SamePtrsOwn(d, t, d', t, own, lo, hi);
    forall i', x | 1 <= i' < |t| && 0 <= x < 8459776
      ensures Byte(d', t[i'].addrs, x) == if i' == i && x / 512 == n then d'[c][x % 512] else Byte(d, t[i'].addrs, x)
    {
      DataKeepsByte(d, d', t, own, lo, hi, c, i, n, i', x);
    }
  }

  lemma DataKeepsPointer(d: Disk, d': Disk, t: Table, own: map<nat, Owner>, lo: nat, hi: nat, c: nat, i: nat, n: nat,
                         i': nat, p': Pos)
    requires Shaped(t) && Owned(d, t, own, lo, hi) && 1 <= i < |t| && n < 16523 && 1 <= i' < |t| && ValidPos(p')
    requires c == Ptr(d, t[i].addrs, DataPos(n)) && 0 < c < |d| && |d'| == |d|
    requires forall b :: 0 <= b < |d| && b != c ==> d'[b] == d[b]
    ensures Ptr(d', t[i'].addrs, p') == Ptr(d, t[i'].addrs, p')
  {
    OwnedPtr(d, t, own, lo, hi, i, DataPos(n));
    forall q | ValidPos(q) && !IsData(q) && 0 < Ptr(d, t[i'].addrs, q) < |d|
      ensures d'[Ptr(d, t[i'].addrs, q)] == d[Ptr(d, t[i'].addrs, q)]
    {
      OwnedPtr(d, t, own, lo, hi, i', q);
    }
    PtrDepends(d, d', t[i'].addrs, p');
  }

  lemma DataKeepsByte(d: Disk, d': Disk, t: Table, own: map<nat, Owner>, lo: nat, hi: nat, c: nat, i: nat, n: nat,
                      i': nat, x: nat)
    requires Shaped(t) && Owned(d, t, own, lo, hi) && 1 <= i < |t| && n < 16523 && 1 <= i' < |t| && x < 8459776
    requires c == Ptr(d, t[i].addrs, DataPos(n)) && 0 < c < |d| && |d'| == |d| && |d'[c]| == 512
    requires forall b :: 0 <= b < |d| && b != c ==> d'[b] == d[b]
    ensures Byte(d', t[i'].addrs, x) == if i' == i && x / 512 == n then d'[c][x % 512] else Byte(d, t[i'].addrs, x)
  {
    var p' := DataPos(x / 512);
    DataKeepsPointer(d, d', t, own, lo, hi, c, i, n, i', p');
    OwnedPtr(d, t, own, lo, hi, i, DataPos(n));
    OwnedPtr(d, t, own, lo, hi, i', p');
    if p' == DataPos(n) { DataPosInjective(x / 512, n); }
  }
}
