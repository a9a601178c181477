/** The v2 frame allocator and virtual memory manager. Frames are counted in pages. */
module Vmm {
  import opened Bits
  import opened Bytes
  import opened Words
  import opened Paging
  import opened PagingViews
  import opened PageEntry
  import opened PageRights

  // ---- the frame allocator ----

  class Pmm {
    var free: seq<nat>
    var refs: map<nat, nat>
    const base: nat

    /** All frames from base on are free, the lowest to be taken first. */
    constructor (pages: nat, base: nat)
      ensures this.base == base && refs == map[] && FreeList(free, map[], base, pages)
      ensures base < pages ==> |free| == pages - base && free[|free| - 1] == base
    {
      this.base := base;
      refs := map[];
      var list: seq<nat> := [];
      var addr := pages - 1;
      while addr >= base
        invariant base - 1 <= addr <= pages - 1 || (base >= pages && addr == pages - 1 && list == [])
        invariant |list| == pages - 1 - addr
        invariant forall i :: 0 <= i < |list| ==> list[i] == pages - 1 - i
      {
        list := list + [addr];
        addr := addr - 1;
      }
      forall f ensures f in list <==> base <= f < pages {
        if base <= f < pages { assert list[pages - 1 - f] == f; }
      }
      free := list;
    }

    method Alloc() returns (ok: bool, frame: nat)
      modifies this
      ensures ok <==> old(|free|) > 0
      ensures ok ==> frame == old(free[|free| - 1]) && free == old(free[..|free| - 1]) && refs == old(refs)[frame := 1]
      ensures !ok ==> free == old(free) && refs == old(refs)
    {
      if |free| == 0 {
        return false, 0;
      }
      frame := free[|free| - 1];
      free := free[..|free| - 1];
      refs := refs[frame := 1];
      ok := true;
    }

    method Incref(frame: nat)
      modifies `refs
      ensures refs == old(refs)[frame := (if frame in old(refs) then old(refs)[frame] else 1) + 1]
    {
      refs := refs[frame := (if frame in refs then refs[frame] else 1) + 1];
    }

    method Refcount(frame: nat) returns (n: nat)
      ensures n == if frame in refs then refs[frame] else 0
    {
      n := if frame in refs then refs[frame] else 0;
    }

    /** Drops a reference; the last one puts the frame back. */
    method Release(frame: nat)
      modifies this
      ensures var c: int := (if frame in old(refs) then old(refs)[frame] else 1) as int - 1;
        if c <= 0 then refs == old(refs) - {frame} && free == old(free) + [frame]
        else refs == old(refs)[frame := c] && free == old(free)
    {
      var c: int := (if frame in refs then refs[frame] else 1) as int - 1;
      if c <= 0 {
        refs := refs - {frame};
        free := free + [frame];
      } else {
        refs := refs[frame := c];
      }
    }
  }

  // ---- addresses ----

  function DirIndex(v: nat): (i: nat) ensures i < 1024 { v % 0x1_0000_0000 / 0x40_0000 }
  function TableIndex(v: nat): (i: nat) ensures i < 1024 { v / 0x1000 % 1024 }
  function Offset(v: nat): (i: nat) ensures i < 4096 { v % 0x1000 }

  function ZeroPageBytes(): (z: seq<u8>)
    ensures |z| == 4096 && forall i :: 0 <= i < 4096 ==> z[i] == 0
  {
    seq(4096, i => 0)
  }

  datatype Lookup = Found(frame: nat, off: nat) | NotPresent | Protection

  // ---- translation ----

  function Translate(m: Memory, pd: nat, v: nat, write: bool, user: bool): Lookup {
    var pde := Word(m, pd, DirIndex(v));
    if And(pde, P) == 0 then NotPresent
    else if user && And(pde, U) == 0 then Protection
    else
      var pte := Word(m, pde / 4096, TableIndex(v));
      if And(pte, P) == 0 then NotPresent
      else if user && And(pte, U) == 0 then Protection
      else if write && And(pte, W) == 0 then Protection
      else Found(pte / 4096, Offset(v))
  }

  /** The page of an address is there for the user to read, or to write once it is their own. */
  predicate Reachable(m: Memory, pd: nat, v: nat, write: bool) {
    var r := RightAt(m, pd, DirIndex(v), TableIndex(v));
    r == ReadWrite || (r == ReadOnly && !write)
  }

  function SeesAt(m: Memory, pd: nat, v: nat): int {
    Sees(m, pd, DirIndex(v), TableIndex(v), Offset(v))
  }

  lemma FlagIs(w: nat)
    ensures (And(w, P) == 0 <==> !Present(w)) && (And(w, W) == 0 <==> !Writable(w))
      && (And(w, U) == 0 <==> !UserPage(w))
  {
    Pow2At12();
    assert Pow2(0) == P && Pow2(1) == W;
    AndTestsBit(w, 0); AndTestsBit(w, 1); AndTestsBit(w, 2);
  }

  /** Translation, in terms of the entries. */
  lemma TranslateIs(m: Memory, pd: nat, v: nat, write: bool)
    ensures var pde, pte := Word(m, pd, DirIndex(v)), Pte(m, pd, DirIndex(v), TableIndex(v));
      var r := Translate(m, pd, v, write, true);
      (r.Found? <==> Present(pde) && UserPage(pde) && Present(pte) && UserPage(pte) && (write ==> Writable(pte)))
      && (r.Found? ==> r == Found(pte / 4096, Offset(v)))
  {
    var pde := Word(m, pd, DirIndex(v));
    FlagIs(pde);
    FlagIs(Word(m, pde / 4096, TableIndex(v)));
  }

  // ---- the memory manager ----

  class Vmm {
    var phys: Memory
    const pmm: Pmm
    ghost var spaces: set<nat>
    ghost var uses: Uses

    constructor (phys: Memory, pmm: Pmm)
      requires Paged(phys) && |phys| <= 0x10_0000 && pmm.refs == map[] && FreeList(pmm.free, map[], pmm.base, |phys|)
      ensures this.phys == phys && this.pmm == pmm && Valid() && spaces == {}
    {
      this.phys, this.pmm := phys, pmm;
      spaces, uses := {}, map[];
    }

    /** The invariant, with frames allocated that are not in the tables yet. */
    ghost predicate Holding(pend: Uses)
      reads this, pmm
    {
      && |phys| <= 0x10_0000
      && Tables(phys, spaces, uses, {}, pmm.base)
      && pend.Keys !! uses.Keys
      && Counted(pmm.refs, uses + pend)
      && FreeList(pmm.free, uses + pend, pmm.base, |phys|)
    }

    ghost predicate Valid()
      reads this, pmm
    {
      && |phys| <= 0x10_0000
      && Tables(phys, spaces, uses, {}, pmm.base)
      && Counted(pmm.refs, uses)
      && FreeList(pmm.free, uses, pmm.base, |phys|)
    }

    /** A zeroed frame, to become u. */
    method Fresh(ghost pend: Uses, ghost u: Use) returns (ok: bool, f: nat)
      requires Holding(pend)
      modifies `phys, pmm
      ensures ok ==> f !in uses && f !in pend && pmm.base <= f && ZeroPage(phys, f) && Holding(pend[f := {u}])
      ensures ok ==> AllSee(old(phys), phys, spaces) && |phys| == old(|phys|)
      ensures ok ==> forall g :: 0 <= g < |phys| && g != f ==> phys[g] == old(phys[g])
      ensures !ok ==> |pmm.free| == 0
    {
      ghost var m, free := phys, pmm.free;
      ok, f := pmm.Alloc();
      if !ok { return; }
      TakeFree(free, uses + pend, pmm.base, |phys|, {u});
      phys := phys[f := ZeroPageBytes()];
      CountedAdd(old(pmm.refs), uses + pend, f, u);
      assert Add(uses + pend, f, u) == uses + pend[f := {u}] == (uses + pend)[f := {u}];
      ChangedFree(m, phys, spaces, uses, pmm.base, f);
    }

    /** An address space with nothing mapped. */
    method CreateAddressSpace() returns (ok: bool, pd: nat)
      requires Valid()
      modifies this, pmm
      ensures ok ==> Valid() && pd !in old(spaces) && spaces == old(spaces) + {pd} && uses == old(uses)[pd := {Dir(pd)}]
      ensures ok ==> |phys| == old(|phys|)
      ensures ok ==> pd !in old(uses) && AllSee(old(phys), phys, old(spaces)) && SamePtes(old(phys), phys, old(spaces))
      ensures ok ==> forall u :: ValidUse(u) && u.pd == pd && !u.Dir? ==> Frame(phys, u) == -1
      ensures ok ==>
        SameRights(old(phys), phys, old(spaces)) && DirsOpen(old(phys), phys, old(spaces)) && Bare(phys, pd)
      ensures !ok ==> |pmm.free| == 0
    {
      assert uses + map[] == uses;
      ghost var m := phys;
      ghost var pend: Uses := map[];
      ok, pd := Fresh(pend, Dir(0));
      if !ok { return; }
      assert uses + map[pd := {Dir(0)}] == uses[pd := {Dir(0)}];
      SpaceAdded(phys, spaces, uses, pmm.base, pd);
      FreshPtes(m, phys, spaces, uses, pmm.base, pd);
      DataRights(m, phys, spaces, uses, pmm.base, pd);
      NewRights(phys, pd);
      SwapUse(pmm.refs, pmm.free, uses, pmm.base, |phys|, pd, Dir(0), Dir(pd));
      spaces, uses := spaces + {pd}, uses[pd := {Dir(pd)}];
    }

    /** The first half of mapping a page: its page table, made when missing. */
    method EnsureTable(pd: nat, di: nat, ghost pend: Uses) returns (ok: bool)
      requires Holding(pend) && pd in spaces && di < 1024
      modifies this, pmm
      ensures ok ==> Holding(pend) && Table(phys, pd, di) >= 0 && spaces == old(spaces) && |phys| == old(|phys|)
      ensures ok ==> AllSee(old(phys), phys, spaces) && SamePtes(old(phys), phys, spaces)
      ensures ok ==> TableMade(old(uses), uses, Tab(pd, di))
      ensures ok ==> forall f :: f in pend && f < |phys| ==> phys[f] == old(phys)[f]
      ensures ok ==> SameBut(old(phys), phys, spaces, Tab(pd, di))
      ensures ok ==> SameRights(old(phys), phys, spaces) && DirsOpen(old(phys), phys, spaces)
      ensures !ok ==> |pmm.free| == 0
    {
      UseRecorded(phys, spaces, uses, {}, Dir(pd));
      assert Frame(phys, Dir(pd)) == pd;
      var pde := Read32(phys[pd], 4 * di);
      PresentIs(pde);
      ok := true;
      if And(pde, P) == 0 {
        ok := MakeTable(pd, di, pend);
      }
    }

    method MakeTable(pd: nat, di: nat, ghost pend: Uses) returns (ok: bool)
      requires Holding(pend) && pd in spaces && di < 1024 && Table(phys, pd, di) == -1
      modifies this, pmm
      ensures ok ==> Holding(pend) && Table(phys, pd, di) >= 0 && spaces == old(spaces) && |phys| == old(|phys|)
      ensures ok ==> AllSee(old(phys), phys, spaces) && SamePtes(old(phys), phys, spaces)
      ensures ok ==> TableMade(old(uses), uses, Tab(pd, di))
      ensures ok ==> forall f :: f in pend && f < |phys| ==> phys[f] == old(phys)[f]
      ensures ok ==> SameBut(old(phys), phys, spaces, Tab(pd, di))
      ensures ok ==> SameRights(old(phys), phys, spaces) && DirsOpen(old(phys), phys, spaces)
      ensures !ok ==> |pmm.free| == 0
    {
      ghost var m := phys;
      UseRecorded(m, spaces, uses, {}, Dir(pd));
      assert Frame(m, Dir(pd)) == pd;
      var t;
      ok, t := Fresh(pend, Tab(pd, di));
      if !ok { return; }
      FreshPtes(m, phys, spaces, uses, pmm.base, t);
      DataRights(m, phys, spaces, uses, pmm.base, t);
      assert Frame(phys, Tab(pd, di)) == Frame(m, Tab(pd, di));
      ghost var m1 := phys;
      LinkTable(pd, di, t, pend);
      AllSeeTrans(m, m1, phys, spaces);
      SamePtesTrans(m, m1, phys, spaces);
      SameButTrans(m, m1, phys, spaces, Tab(pd, di));
      SameRightsTrans(m, m1, phys, spaces);
      DirsOpenTrans(m, m1, phys, spaces);
    }

    /** A zeroed frame becomes the table of a directory entry. */
    method LinkTable(pd: nat, di: nat, t: nat, ghost pend: Uses)
      requires t !in uses && t !in pend && Holding(pend[t := {Tab(pd, di)}]) && pmm.base <= t && ZeroPage(phys, t)
      requires pd in spaces && di < 1024 && Table(phys, pd, di) == -1
      modifies `phys, `uses
      ensures Holding(pend) && Table(phys, pd, di) >= 0 && |phys| == old(|phys|)
        && uses == old(uses)[t := {Tab(pd, di)}]
      ensures AllSee(old(phys), phys, spaces) && SamePtes(old(phys), phys, spaces)
      ensures forall f :: 0 <= f < |phys| && f != pd ==> phys[f] == old(phys)[f]
      ensures SameBut(old(phys), phys, spaces, Tab(pd, di))
      ensures SameRights(old(phys), phys, spaces) && DirsOpen(old(phys), phys, spaces)
    {
      ghost var m := phys;
      UseRecorded(m, spaces, uses, {}, Dir(pd));
      assert Frame(m, Dir(pd)) == pd;
      TableEntryIs(t);
      var word := Or(Or(Or(t * 4096, P), W), U);
      phys := phys[pd := Write32(phys[pd], 4 * di, word)];
      TableStep(m, phys, spaces, uses, pmm.base, pd, di, word, t);
      TableRights(m, phys, spaces, uses, pmm.base, pd, di, word, t);
      MoveIn(uses, pend, t, {Tab(pd, di)});
      assert t !in pend;
      uses := uses[t := {Tab(pd, di)}];
    }

    /** Maps a fresh zeroed page. The counts stay exact if and only if nothing was mapped there: an
        entry that is overwritten leaves its frame counted and unreachable. */
    method MapPage(pd: nat, vaddr: nat, flags: nat) returns (ok: bool, frame: nat)
      requires Valid() && pd in spaces
      modifies this, pmm
      ensures ok ==> spaces == old(spaces) && |phys| == old(|phys|) && Tables(phys, spaces, uses, {}, pmm.base)
      ensures ok ==>
        (Counted(pmm.refs, uses) <==> FrameOf(old(Pte(phys, pd, DirIndex(vaddr), TableIndex(vaddr)))) == -1)
      ensures ok ==> (FrameOf(old(Pte(phys, pd, DirIndex(vaddr), TableIndex(vaddr)))) == -1 ==> Valid())
      ensures ok ==> OnePage(old(phys), phys, spaces, pd, DirIndex(vaddr), TableIndex(vaddr)) && ZeroPage(phys, frame)
      ensures ok ==> Pte(phys, pd, DirIndex(vaddr), TableIndex(vaddr)) == MapEntry(frame, flags)
      ensures ok ==> frame < 0x10_0000 && frame in uses && uses[frame] == {Map(pd, DirIndex(vaddr), TableIndex(vaddr))}
      ensures ok ==> PageRight(old(phys), phys, spaces, pd, DirIndex(vaddr), TableIndex(vaddr), Granted(flags))
      ensures !ok ==> |pmm.free| == 0
    {
      var di, ti := DirIndex(vaddr), TableIndex(vaddr);
      ghost var u, m, was := Map(pd, di, ti), phys, uses;
      ghost var pend: Uses := map[];
      assert uses + pend == uses;
      ok, frame := Fresh(pend, u);
      if !ok { return; }
      FreshPtes(m, phys, spaces, uses, pmm.base, frame);
      DataRights(m, phys, spaces, uses, pmm.base, frame);
      ghost var m1 := phys;
      pend := map[frame := {u}];
      ok := EnsureTable(pd, di, pend);
      if !ok { return; }
      SamePtesTrans(m, m1, phys, spaces);
      AllSeeTrans(m, m1, phys, spaces);
      ghost var m2 := phys;
      assert Pte(m2, pd, di, ti) == Pte(m, pd, di, ti);
      PutPage(pd, di, ti, frame, flags);
      OnePageTrans(m, m2, phys, spaces, pd, di, ti);
      MappedRight(m, m1, m2, phys, spaces, pd, di, ti, Granted(flags));
    }

    /** The second half of mapping a page: its entry. */
    method PutPage(pd: nat, di: nat, ti: nat, frame: nat, flags: nat)
      requires pd in spaces && di < 1024 && ti < 1024 && frame !in uses && pmm.base <= frame < |phys|
      requires Holding(map[frame := {Map(pd, di, ti)}]) && Table(phys, pd, di) >= 0
      modifies `phys, `uses
      ensures |phys| == old(|phys|) && Tables(phys, spaces, uses, {}, pmm.base)
      ensures Counted(pmm.refs, uses) <==> FrameOf(old(Pte(phys, pd, di, ti))) == -1
      ensures FrameOf(old(Pte(phys, pd, di, ti))) == -1 ==> Valid()
      ensures OnePage(old(phys), phys, spaces, pd, di, ti) && phys[frame] == old(phys)[frame]
      ensures Pte(phys, pd, di, ti) == MapEntry(frame, flags) && frame in uses && uses[frame] == {Map(pd, di, ti)}
      ensures PageRight(old(phys), phys, spaces, pd, di, ti, Granted(flags))
    {
      ghost var m, u, f := phys, Map(pd, di, ti), FrameOf(Pte(phys, pd, di, ti));
      SetEntry(pd, di, ti, frame, flags);
      assert uses + map[frame := {u}] == uses[frame := {u}];
      if f == -1 {
        PteMapped(m, phys, spaces, uses, pmm.base, pd, di, ti, MapEntry(frame, flags), frame);
        assert Add(uses, frame, u) == uses[frame := {u}];
        uses := uses[frame := {u}];
      } else {
        UseRecorded(m, spaces, uses, {}, u);
        PteMoved(m, phys, spaces, uses, pmm.base, pd, di, ti, MapEntry(frame, flags), f, frame);
        Miscounted(pmm.refs, uses, f, u, frame);
        uses := Drop(uses, f, u)[frame := {u}];
      }
    }

    /** Maps a fresh page and fills it. */
    method LoadPage(pd: nat, vaddr: nat, chunk: seq<u8>, flags: nat) returns (ok: bool)
      requires Valid() && pd in spaces && |chunk| <= 4096 && SeesAt(phys, pd, vaddr) == -1
      modifies this, pmm
      ensures ok ==> Valid() && spaces == old(spaces) && |phys| == old(|phys|)
      ensures ok ==> PageSeen(old(phys), phys, spaces, pd, DirIndex(vaddr), TableIndex(vaddr), Padded(chunk))
      ensures ok ==> PageRight(old(phys), phys, spaces, pd, DirIndex(vaddr), TableIndex(vaddr), Granted(flags))
      ensures !ok ==> |pmm.free| == 0
    {
      ghost var m := phys;
      UnmappedPage(phys, spaces, uses, pmm.base, pd, vaddr);
      var frame;
      ok, frame := MapPage(pd, vaddr, flags);
      if !ok { return; }
      MapEntryIs(frame, flags);
      ghost var m1 := phys;
      phys := phys[frame := chunk + phys[frame][|chunk|..]];
      PageViews(m1, phys, spaces, uses, pmm.base, pd, DirIndex(vaddr), TableIndex(vaddr), frame);
      Filled(m, m1, phys, spaces, pd, DirIndex(vaddr), TableIndex(vaddr), frame, chunk);
      DataRights(m1, phys, spaces, uses, pmm.base, frame);
      PageRightBefore(m, m1, phys, spaces, pd, DirIndex(vaddr), TableIndex(vaddr), Granted(flags));
    }

    /** Maps memSize bytes at vaddr, holding data and then zeros. No one else sees a change. Where some
        page is mapped already, MapPage says what goes wrong. */
    method LoadSegment(pd: nat, vaddr: nat, data: seq<u8>, memSize: nat, flags: nat) returns (ok: bool)
      requires Valid() && pd in spaces && memSize <= 0x1_0000_0000 && |data| <= 0x1_0000_0000
      requires forall a :: vaddr <= a < vaddr + Round(memSize, |data|) ==> SeesAt(phys, pd, a) == -1
      modifies this, pmm
      ensures vaddr % 4096 != 0 ==> !ok && phys == old(phys) && uses == old(uses)
      ensures ok ==> Valid() && spaces == old(spaces)
      ensures var total := Round(memSize, |data|);
        ok ==> Laid(old(phys), phys, spaces, pd, vaddr, Image(data, total), total, Granted(flags))
      ensures !ok ==> vaddr % 4096 != 0 || |pmm.free| == 0
    {
      if vaddr % 4096 != 0 {
        return false;
      }
      ghost var m := phys;
      var total := Round(memSize, |data|);
      ok := true;
      var off := 0;
      while off < total
        invariant 0 <= off <= total && off % 4096 == 0 && (vaddr + off) % 4096 == 0 && Valid() && spaces == old(spaces)
        invariant Laid(m, phys, spaces, pd, vaddr, Image(data, total), off, Granted(flags))
      {
        PageRoom(off, total);
        ok := LoadStep(pd, vaddr, data, total, off, flags, m);
        if !ok { return; }
        NextPage(vaddr + off);
        NextPage(off);
        off := off + 4096;
      }
    }

    method LoadStep(pd: nat, vaddr: nat, data: seq<u8>, total: nat, off: nat, flags: nat,
                    ghost m: Memory) returns (ok: bool)
      requires Valid() && pd in spaces && |data| <= total <= 0x1_0000_0000 && off + 4096 <= total
        && (vaddr + off) % 4096 == 0
      requires forall a :: vaddr <= a < vaddr + total ==> SeesAt(m, pd, a) == -1
      requires Laid(m, phys, spaces, pd, vaddr, Image(data, total), off, Granted(flags))
      modifies this, pmm
      ensures ok ==>
        Valid() && spaces == old(spaces)
        && Laid(m, phys, spaces, pd, vaddr, Image(data, total), off + 4096, Granted(flags))
      ensures !ok ==> |pmm.free| == 0
    {
      ghost var m1 := phys;
      StillUnmapped(m, m1, spaces, pd, vaddr, Image(data, total), off);
      ok := LoadPage(pd, vaddr + off, Chunk(data, off), flags);
      if ok { LaidMore(m, m1, phys, spaces, pd, vaddr, data, total, off, Granted(flags)); }
    }

    /** Resolves a write to a shared page by giving the space its own copy, or the page itself when no
        one else has it. Declines when the page is not marked for copying. */
    method TryCow(pd: nat, vaddr: nat) returns (ok: bool, done: bool)
      requires Valid() && pd in spaces
      modifies this, pmm
      ensures ok ==> Valid() && spaces == old(spaces) && |phys| == old(|phys|) && AllSee(old(phys), phys, spaces)
      ensures var w := old(Pte(phys, pd, DirIndex(vaddr), TableIndex(vaddr))); ok ==> (done <==> Present(w) && Cow(w))
      ensures ok && !done ==>
        phys == old(phys) && uses == old(uses) && pmm.refs == old(pmm.refs) && pmm.free == old(pmm.free)
      ensures var w, w' := old(Pte(phys, pd, DirIndex(vaddr), TableIndex(vaddr))),
          Pte(phys, pd, DirIndex(vaddr), TableIndex(vaddr));
        ok && done ==> Present(w') && Writable(w') && !Cow(w') && (UserPage(w') <==> UserPage(w))
      ensures ok ==> Word(phys, pd, DirIndex(vaddr)) == old(Word(phys, pd, DirIndex(vaddr)))
      ensures ok ==> SameRights(old(phys), phys, spaces) && DirsOpen(old(phys), phys, spaces)
      ensures !ok ==> |pmm.free| == 0
      ensures ok && done ==> Unshares(old(uses), uses, Map(pd, DirIndex(vaddr), TableIndex(vaddr)))
    {
      var di, ti := DirIndex(vaddr), TableIndex(vaddr);
      UseRecorded(phys, spaces, uses, {}, Dir(pd));
      assert Frame(phys, Dir(pd)) == pd && Frame(phys, Tab(pd, di)) == Table(phys, pd, di);
      var pde := Read32(phys[pd], 4 * di);
      PresentIs(pde);
      if And(pde, P) == 0 {
        return true, false;
      }
      var table := pde / 4096;
      UseRecorded(phys, spaces, uses, {}, Tab(pd, di));
      var pte := Read32(phys[table], 4 * ti);
      PresentIs(pte);
      CowIs(pte);
      if And(pte, P) == 0 || And(pte, COW) == 0 {
        return true, false;
      }
      ok := Unshare(pd, di, ti, table, pte);
      done := true;
    }

    method Unshare(pd: nat, di: nat, ti: nat, table: nat, pte: u32) returns (ok: bool)
      requires Valid() && pd in spaces && di < 1024 && ti < 1024 && table == Table(phys, pd, di)
        && pte == Pte(phys, pd, di, ti)
      requires Present(pte) && Cow(pte)
      modifies this, pmm
      ensures ok ==> Valid() && spaces == old(spaces) && |phys| == old(|phys|) && AllSee(old(phys), phys, spaces)
      ensures ok ==> var w := Pte(phys, pd, di, ti);
        Present(w) && Writable(w) && !Cow(w) && (UserPage(w) <==> UserPage(pte))
      ensures ok ==> Word(phys, pd, di) == old(Word(phys, pd, di))
      ensures ok ==> SameRights(old(phys), phys, spaces) && DirsOpen(old(phys), phys, spaces)
      ensures !ok ==> |pmm.free| == 0
      ensures ok ==> Unshares(old(uses), uses, Map(pd, di, ti))
    {
      var old_ := pte / 4096;
      UseRecorded(phys, spaces, uses, {}, Map(pd, di, ti));
      assert Frame(phys, Map(pd, di, ti)) == old_;
      var n := pmm.Refcount(old_);
      if n <= 1 {
        SoleUse(uses[old_], Map(pd, di, ti));
        KeepPage(pd, di, ti, table, pte);
        return true;
      }
      ok := CopyPage(pd, di, ti, table, pte);
    }

    /** The last owner takes the page back. */
    method KeepPage(pd: nat, di: nat, ti: nat, table: nat, pte: u32)
      requires Valid() && pd in spaces && di < 1024 && ti < 1024 && table == Table(phys, pd, di)
        && pte == Pte(phys, pd, di, ti)
      requires Present(pte) && Cow(pte) && pte / 4096 in uses && uses[pte / 4096] == {Map(pd, di, ti)}
      modifies `phys
      ensures Valid() && |phys| == old(|phys|) && AllSee(old(phys), phys, spaces)
      ensures var w := Pte(phys, pd, di, ti); Present(w) && Writable(w) && !Cow(w) && (UserPage(w) <==> UserPage(pte))
      ensures Word(phys, pd, di) == old(Word(phys, pd, di))
      ensures SameRights(old(phys), phys, spaces) && DirsOpen(old(phys), phys, spaces)
    {
      ghost var m := phys;
      var f := pte / 4096;
      assert Frame(m, Map(pd, di, ti)) == f && Frame(m, Tab(pd, di)) == table;
      MappedIsData(m, spaces, uses, pmm.base, Map(pd, di, ti), Tab(pd, di));
      UseRecorded(m, spaces, uses, {}, Tab(pd, di));
      OwnEntryIs(f, pte);
      var word := OwnEntry(f, pte);
      phys := phys[table := Write32(phys[table], 4 * ti, word)];
      PteFlags(m, phys, spaces, uses, pmm.base, pd, di, ti, word);
      SameEntryViews(m, phys, spaces, uses, pmm.base, pd, di, ti, word, f);
      PteWritten(m, phys, spaces, uses, pmm.base, pd, di, ti, word, Map(pd, di, ti));
      DirWritten(m, phys, spaces, uses, pmm.base, pd, di, ti, word, pd, di);
      EntrySameRights(m, phys, spaces, uses, pmm.base, pd, di, ti, word);
    }

    /** A page still shared is copied to a fresh frame. */
    method CopyPage(pd: nat, di: nat, ti: nat, table: nat, pte: u32) returns (ok: bool)
      requires Valid() && pd in spaces && di < 1024 && ti < 1024 && table == Table(phys, pd, di)
        && pte == Pte(phys, pd, di, ti)
      requires Present(pte) && Cow(pte) && pte / 4096 in uses && Map(pd, di, ti) in uses[pte / 4096]
      modifies this, pmm
      ensures ok ==> Valid() && spaces == old(spaces) && |phys| == old(|phys|) && AllSee(old(phys), phys, spaces)
      ensures ok ==> var w := Pte(phys, pd, di, ti);
        Present(w) && Writable(w) && !Cow(w) && (UserPage(w) <==> UserPage(pte))
      ensures ok ==> Word(phys, pd, di) == old(Word(phys, pd, di))
      ensures ok ==> SameRights(old(phys), phys, spaces) && DirsOpen(old(phys), phys, spaces)
      ensures !ok ==> |pmm.free| == 0
      ensures ok ==> Moves(old(uses), uses, pte / 4096, Map(pd, di, ti))
    {
      ghost var m := phys;
      var f := pte / 4096;
      var g;
      ok, g := CopyFrame(f, Map(pd, di, ti));
      if !ok { return; }
      FreshPtes(m, phys, spaces, uses, pmm.base, g);
      assert Frame(phys, Tab(pd, di)) == Frame(m, Tab(pd, di)) && Frame(phys, Dir(pd)) == pd;
      DirWord(m, phys, spaces, uses, pmm.base, pd, di, g);
      DataRights(m, phys, spaces, uses, pmm.base, g);
      ghost var m1 := phys;
      Repoint(pd, di, ti, table, pte, f, g);
      AllSeeTrans(m, m1, phys, spaces);
      SameRightsTrans(m, m1, phys, spaces);
      DirsOpenTrans(m, m1, phys, spaces);
    }

    /** A fresh frame holding a copy of another. */
    method CopyFrame(f: nat, ghost u: Use) returns (ok: bool, g: nat)
      requires Valid() && f in uses
      modifies `phys, pmm
      ensures ok ==> g !in uses && pmm.base <= g < |phys| == old(|phys|) && Holding(map[g := {u}]) && phys[g] == phys[f]
      ensures ok ==> AllSee(old(phys), phys, spaces) && forall h :: 0 <= h < |phys| && h != g ==>
        phys[h] == old(phys[h])
      ensures !ok ==> |pmm.free| == 0
    {
      ghost var m, free, refs := phys, pmm.free, pmm.refs;
      ok, g := pmm.Alloc();
      if !ok { return; }
      TakeFree(free, uses, pmm.base, |phys|, {u});
      phys := phys[g := phys[f]];
      CountedAdd(refs, uses, g, u);
      assert Add(uses, g, u) == uses[g := {u}] == uses + map[g := {u}];
      ChangedFree(m, phys, spaces, uses, pmm.base, g);
    }

    /** The entry names the copy, and the shared frame loses a reference. */
    method Repoint(pd: nat, di: nat, ti: nat, table: nat, pte: u32, f: nat, g: nat)
      requires pd in spaces && di < 1024 && ti < 1024 && table == Table(phys, pd, di) && pte == Pte(phys, pd, di, ti)
      requires Present(pte) && Cow(pte) && f == pte / 4096 && f in uses && Map(pd, di, ti) in uses[f]
      requires g !in uses && pmm.base <= g < |phys| && Holding(map[g := {Map(pd, di, ti)}]) && phys[g] == phys[f]
      modifies this, pmm
      ensures Valid() && spaces == old(spaces) && |phys| == old(|phys|) && AllSee(old(phys), phys, spaces)
      ensures var w := Pte(phys, pd, di, ti); Present(w) && Writable(w) && !Cow(w) && (UserPage(w) <==> UserPage(pte))
      ensures Word(phys, pd, di) == old(Word(phys, pd, di))
      ensures SameRights(old(phys), phys, spaces) && DirsOpen(old(phys), phys, spaces)
      ensures uses == Drop(old(uses), f, Map(pd, di, ti))[g := {Map(pd, di, ti)}]
    {
      RepointEntry(pd, di, ti, table, pte, f, g);
      ReleaseFor(f, Map(pd, di, ti), g);
      uses := Drop(uses, f, Map(pd, di, ti))[g := {Map(pd, di, ti)}];
    }

    method RepointEntry(pd: nat, di: nat, ti: nat, table: nat, pte: u32, f: nat, g: nat)
      requires pd in spaces && di < 1024 && ti < 1024 && table == Table(phys, pd, di) && pte == Pte(phys, pd, di, ti)
      requires Present(pte) && Cow(pte) && f == pte / 4096 && f in uses && Tables(phys, spaces, uses, {}, pmm.base)
      requires g !in uses && pmm.base <= g < |phys| <= 0x10_0000 && phys[g] == phys[f]
      modifies `phys
      ensures |phys| == old(|phys|) && AllSee(old(phys), phys, spaces)
      ensures Tables(phys, spaces, Drop(uses, f, Map(pd, di, ti))[g := {Map(pd, di, ti)}], {}, pmm.base)
      ensures var w := Pte(phys, pd, di, ti); Present(w) && Writable(w) && !Cow(w) && (UserPage(w) <==> UserPage(pte))
      ensures Word(phys, pd, di) == old(Word(phys, pd, di))
      ensures SameRights(old(phys), phys, spaces) && DirsOpen(old(phys), phys, spaces)
    {
      ghost var m := phys;
      assert Frame(m, Tab(pd, di)) == table;
      UseRecorded(m, spaces, uses, {}, Tab(pd, di));
      OwnEntryIs(g, pte);
      var word := OwnEntry(g, pte);
      phys := phys[table := Write32(phys[table], 4 * ti, word)];
      EntryMovedOn(m, phys, spaces, uses, pmm.base, pd, di, ti, word, f, g);
      EntrySameRights(m, phys, spaces, uses, pmm.base, pd, di, ti, word);
    }

    /** One reference to f is dropped as the pending frame g takes its place. */
    method ReleaseFor(f: nat, ghost u: Use, ghost g: nat)
      requires f in uses && u in uses[f] && g !in uses && pmm.base <= f < |phys|
      requires Counted(pmm.refs, uses + map[g := {u}]) && FreeList(pmm.free, uses + map[g := {u}], pmm.base, |phys|)
      modifies pmm
      ensures Counted(pmm.refs, Drop(uses, f, u)[g := {u}])
        && FreeList(pmm.free, Drop(uses, f, u)[g := {u}], pmm.base, |phys|)
    {
      Released(pmm.refs, pmm.free, uses, pmm.base, |phys|, f, u, g);
      pmm.Release(f);
    }

    // ---- fork ----

    /** Takes write permission away from an entry and marks it for copying. */
    method Protect(pd: nat, di: nat, ti: nat, table: nat, pte: u32)
      requires Valid() && pd in spaces && di < 1024 && ti < 1024 && table == Table(phys, pd, di)
        && pte == Pte(phys, pd, di, ti)
      requires Present(pte)
      modifies `phys
      ensures Valid() && |phys| == old(|phys|) && AllSee(old(phys), phys, spaces)
        && SameBut(old(phys), phys, spaces, Dir(pd))
      ensures Pte(phys, pd, di, ti) == SharedEntry(pte) && FrameOf(SharedEntry(pte)) == pte / 4096
      ensures pte / 4096 in uses && NoWriters(phys, uses[pte / 4096])
      ensures PageForked(old(phys), phys, spaces, pd, di, ti)
    {
      ghost var m := phys;
      var f := pte / 4096;
      assert Frame(m, Map(pd, di, ti)) == f && Frame(m, Tab(pd, di)) == table;
      MappedIsData(m, spaces, uses, pmm.base, Map(pd, di, ti), Tab(pd, di));
      UseRecorded(m, spaces, uses, {}, Tab(pd, di));
      UseRecorded(m, spaces, uses, {}, Map(pd, di, ti));
      SharedEntryIs(pte);
      var word := SharedEntry(pte);
      phys := phys[table := Write32(phys[table], 4 * ti, word)];
      Protected(m, phys, spaces, uses, pmm.base, pd, di, ti, word, f);
      EntryRights(m, phys, spaces, uses, pmm.base, pd, di, ti, word);
    }

    /** Gives an empty entry a frame already in use, read only. */
    method Share(pd: nat, di: nat, ti: nat, f: nat, flags: nat)
      requires Valid() && pd in spaces && di < 1024 && ti < 1024 && Table(phys, pd, di) >= 0
        && FrameOf(Pte(phys, pd, di, ti)) == -1
      requires f in uses && f < |phys| && !Writable(flags) && NoWriters(phys, uses[f])
      modifies `phys, `uses, pmm
      ensures Valid() && |phys| == old(|phys|) && OnePage(old(phys), phys, spaces, pd, di, ti)
      ensures SameBut(old(phys), phys, spaces, Map(pd, di, ti)) && FrameOf(Pte(phys, pd, di, ti)) == f
      ensures uses == Add(old(uses), f, Map(pd, di, ti))
      ensures PageRight(old(phys), phys, spaces, pd, di, ti, Granted(flags))
    {
      PutShared(pd, di, ti, f, flags);
      AddRef(f, Map(pd, di, ti));
      uses := Add(uses, f, Map(pd, di, ti));
    }

    method AddRef(f: nat, ghost u: Use)
      requires Counted(pmm.refs, uses) && FreeList(pmm.free, uses, pmm.base, |phys|) && f in uses && u !in uses[f]
      modifies pmm
      ensures Counted(pmm.refs, Add(uses, f, u)) && FreeList(pmm.free, Add(uses, f, u), pmm.base, |phys|)
    {
      SharedCounts(pmm.refs, pmm.free, uses, pmm.base, |phys|, f, u);
      pmm.Incref(f);
    }

    method PutShared(pd: nat, di: nat, ti: nat, f: nat, flags: nat)
      requires Valid() && pd in spaces && di < 1024 && ti < 1024 && Table(phys, pd, di) >= 0
        && FrameOf(Pte(phys, pd, di, ti)) == -1
      requires f in uses && f < |phys| && !Writable(flags) && NoWriters(phys, uses[f])
      modifies `phys
      ensures |phys| == old(|phys|) && OnePage(old(phys), phys, spaces, pd, di, ti)
      ensures SameBut(old(phys), phys, spaces, Map(pd, di, ti)) && FrameOf(Pte(phys, pd, di, ti)) == f
      ensures Tables(phys, spaces, Add(uses, f, Map(pd, di, ti)), {}, pmm.base) && Map(pd, di, ti) !in uses[f]
      ensures PageRight(old(phys), phys, spaces, pd, di, ti, Granted(flags))
    {
      ghost var m := phys;
      assert Frame(m, Dir(pd)) == pd && Frame(m, Tab(pd, di)) == Table(m, pd, di);
      UseRecorded(m, spaces, uses, {}, Dir(pd));
      UseRecorded(m, spaces, uses, {}, Tab(pd, di));
      var table := Read32(phys[pd], 4 * di) / 4096;
      MapEntryIs(f, flags);
      var word := MapEntry(f, flags);
      phys := phys[table := Write32(phys[table], 4 * ti, word)];
      Shared(m, phys, spaces, uses, pmm.base, pd, di, ti, word, f);
      EntryRights(m, phys, spaces, uses, pmm.base, pd, di, ti, word);
    }

    /** The invariant while dst becomes a clone of src: pages before (di, ti) are shared, later ones
        are not mapped yet, and nobody else has noticed. */
    ghost predicate Cloning(src: nat, dst: nat, m: Memory, was: set<nat>, had: Uses, di: nat, ti: nat)
      reads this, pmm
    {
      && Valid() && src in was && dst !in was && spaces == was + {dst} && |phys| == |m|
      && AllSee(m, phys, was) && Outside(had, uses, dst) && Copied(phys, src, dst, di, ti)
      && DirsOpen(m, phys, was) && Open(phys, dst) && (Open(m, src) ==> ClonedRights(m, phys, was, src, dst, di, ti))
    }

    /** A copy-on-write clone: the child sees what the parent sees, no space sees a change, and the only
        new uses of frames are the child's. */
    method CowCloneAddressSpace(src: nat) returns (ok: bool, dst: nat)
      requires Valid() && src in spaces
      modifies this, pmm
      ensures ok ==> Valid() && dst !in old(spaces) && spaces == old(spaces) + {dst} && |phys| == old(|phys|)
      ensures ok ==> AllSee(old(phys), phys, old(spaces)) && SameView(old(phys), src, phys, dst)
      ensures ok ==> Strip(uses, dst) == old(uses)
      ensures ok ==> DirsOpen(old(phys), phys, old(spaces)) && Open(phys, dst)
      ensures ok && Open(old(phys), src) ==> ClonedRights(old(phys), phys, old(spaces), src, dst, 1024, 0)
      ensures !ok ==> |pmm.free| == 0
    {
      ghost var m, was, had := phys, spaces, uses;
      ok, dst := CreateAddressSpace();
      if !ok { return; }
      OutsideNew(m, was, had, pmm.base, dst);
      CopiedNothing(phys, src, dst);
      ClonedNothing(m, phys, was, src, dst);
      var di := 0;
      while di < 1024
        invariant 0 <= di <= 1024 && Cloning(src, dst, m, was, had, di, 0)
      {
        ok := CloneTable(src, dst, di, m, was, had);
        if !ok { return; }
        di := di + 1;
      }
      CopiedAll(m, phys, was, src, dst);
      StripIs(uses, had, dst);
    }

    method CloneTable(src: nat, dst: nat, di: nat, ghost m: Memory, ghost was: set<nat>,
                      ghost had: Uses) returns (ok: bool)
      requires Cloning(src, dst, m, was, had, di, 0) && di < 1024
      modifies this, pmm
      ensures ok ==> Cloning(src, dst, m, was, had, di + 1, 0)
      ensures !ok ==> |pmm.free| == 0
    {
      ok := true;
      assert Frame(phys, Dir(src)) == src;
      UseRecorded(phys, spaces, uses, {}, Dir(src));
      var pde := Read32(phys[src], 4 * di);
      PresentIs(pde);
      assert Table(phys, src, di) == FrameOf(pde);
      if And(pde, P) == 0 {
        RowEmpty(phys, src, di);
        CopiedRowEmpty(phys, src, dst, di);
        if Open(m, src) { ClonedRowEmpty(m, phys, was, src, dst, di); }
        return;
      }
      var table := pde / 4096;
      var ti := 0;
      while ti < 1024
        invariant 0 <= ti <= 1024 && Cloning(src, dst, m, was, had, di, ti) && Table(phys, src, di) == table
      {
        ok := SharePage(src, dst, di, ti, table, m, was, had);
        if !ok { return; }
        ti := ti + 1;
      }
      CopiedRow(phys, src, dst, di);
      if Open(m, src) { ClonedRow(m, phys, was, src, dst, di); }
    }

    /** Shares one page of the parent with the child. */
    method SharePage(src: nat, dst: nat, di: nat, ti: nat, table: nat, ghost m: Memory, ghost was: set<nat>,
                     ghost had: Uses) returns (ok: bool)
      requires Cloning(src, dst, m, was, had, di, ti) && di < 1024 && ti < 1024 && table == Table(phys, src, di)
      modifies this, pmm
      ensures ok ==> Cloning(src, dst, m, was, had, di, ti + 1) && Table(phys, src, di) == table
      ensures !ok ==> |pmm.free| == 0
    {
      ok := true;
      assert Frame(phys, Tab(src, di)) == table;
      UseRecorded(phys, spaces, uses, {}, Tab(src, di));
      var pte := Read32(phys[table], 4 * ti);
      PresentIs(pte);
      assert Frame(phys, Map(src, di, ti)) == FrameOf(pte);
      if And(pte, P) == 0 {
        CopiedNone(phys, src, dst, di, ti);
        if Open(m, src) { ClonedNone(m, phys, was, src, dst, di, ti); }
        return;
      }
      ok := LinkPage(src, dst, di, ti, table, pte, m, was, had);
    }

    method LinkPage(src: nat, dst: nat, di: nat, ti: nat, table: nat, pte: u32, ghost m: Memory, ghost was: set<nat>,
                    ghost had: Uses) returns (ok: bool)
      requires Cloning(src, dst, m, was, had, di, ti) && di < 1024 && ti < 1024 && table == Table(phys, src, di)
      requires pte == Pte(phys, src, di, ti) && Present(pte)
      modifies this, pmm
      ensures ok ==> Cloning(src, dst, m, was, had, di, ti + 1) && Table(phys, src, di) == table
      ensures !ok ==> |pmm.free| == 0
    {
      ghost var m0, u0 := phys, uses;
      var f := pte / 4096;
      assert Frame(m0, Map(dst, di, ti)) == -1;
      ok := Prepare(src, dst, di, ti, table, pte);
      if !ok { return; }
      ghost var m2, u2 := phys, uses;
      SharedEntryIs(pte);
      Share(dst, di, ti, f, CowFlags(pte));
      CloneStep(m, m0, m2, phys, was, spaces, src, dst, di, ti, f);
      OutsideStep(had, u0, u2, uses, dst, di, ti, f);
      ClonedDirs(m, m0, m2, phys, was, spaces, dst);
      if Open(m, src) { ClonedPage(m, m0, m2, phys, was, spaces, src, dst, di, ti, pte); }
    }

    /** Protects the parent's page and makes the child's table: no one sees a change, and the frame is
        ready to be shared. */
    method Prepare(src: nat, dst: nat, di: nat, ti: nat, table: nat, pte: u32) returns (ok: bool)
      requires Valid() && src in spaces && dst in spaces && src != dst && di < 1024 && ti < 1024
        && table == Table(phys, src, di)
      requires pte == Pte(phys, src, di, ti) && Present(pte) && Frame(phys, Map(dst, di, ti)) == -1
      modifies this, pmm
      ensures ok ==> Valid() && spaces == old(spaces) && |phys| == old(|phys|)
      ensures ok ==>
        AllSee(old(phys), phys, spaces) && SameBut(old(phys), phys, spaces, Tab(dst, di))
        && TableMade(old(uses), uses, Tab(dst, di))
      ensures ok ==> Table(phys, dst, di) >= 0 && FrameOf(Pte(phys, dst, di, ti)) == -1
      ensures ok ==> pte / 4096 in uses && pte / 4096 < |phys| && NoWriters(phys, uses[pte / 4096])
      ensures ok ==> PageForked(old(phys), phys, spaces, src, di, ti)
      ensures !ok ==> |pmm.free| == 0
    {
      ghost var m0, u0 := phys, uses;
      assert Frame(m0, Map(src, di, ti)) == pte / 4096;
      Protect(src, di, ti, table, pte);
      ghost var m1 := phys;
      ok := EnsureTableNow(dst, di);
      if !ok { return; }
      Chain12(m0, m1, phys, spaces, u0, uses, pmm.base, src, dst, di, ti, pte / 4096);
      AllSeeTrans(m0, m1, phys, spaces);
      PageForkedBefore(m0, m1, phys, spaces, src, di, ti);
    }

    method EnsureTableNow(pd: nat, di: nat) returns (ok: bool)
      requires Valid() && pd in spaces && di < 1024
      modifies this, pmm
      ensures ok ==> Valid() && Table(phys, pd, di) >= 0 && spaces == old(spaces) && |phys| == old(|phys|)
      ensures ok ==> AllSee(old(phys), phys, spaces) && SamePtes(old(phys), phys, spaces)
      ensures ok ==> TableMade(old(uses), uses, Tab(pd, di)) && SameBut(old(phys), phys, spaces, Tab(pd, di))
      ensures ok ==> SameRights(old(phys), phys, spaces) && DirsOpen(old(phys), phys, spaces)
      ensures !ok ==> |pmm.free| == 0
    {
      assert uses + map[] == uses;
      ok := EnsureTable(pd, di, map[]);
      assert uses + map[] == uses;
    }

    // ---- crossing the user boundary ----

    /** Translates a user address, resolving a shared page when writing. It succeeds exactly when the
        page is mapped for the user and, for a write, is writable or marked for copying. */
    method Xlate(pd: nat, v: nat, write: bool) returns (ok: bool, r: Lookup)
      requires Valid() && pd in spaces
      modifies this, pmm
      ensures ok ==> Valid() && spaces == old(spaces) && |phys| == old(|phys|) && AllSee(old(phys), phys, spaces)
      ensures ok ==> r == Translate(phys, pd, v, write, true)
      ensures ok ==> (r.Found? <==> Reachable(old(phys), pd, v, write))
      ensures !write ==> ok && phys == old(phys) && uses == old(uses)
      ensures ok ==> SameRights(old(phys), phys, spaces) && DirsOpen(old(phys), phys, spaces)
      ensures !ok ==> |pmm.free| == 0
    {
      ok := true;
      r := Translate(phys, pd, v, write, true);
      TranslateIs(phys, pd, v, write);
      if !r.Found? && write {
        var done;
        ok, done := TryCow(pd, v);
        if !ok { return; }
        r := Translate(phys, pd, v, write, true);
        TranslateIs(phys, pd, v, write);
      }
    }

    /** Writes one byte through an address space. No other space sees it, and this one sees it at that
        address only. */
    method StoreByte(pd: nat, v: nat, b: u8) returns (ok: bool, found: bool)
      requires Valid() && pd in spaces
      modifies this, pmm
      ensures ok ==>
        Valid() && spaces == old(spaces) && |phys| == old(|phys|) && (found <==> Reachable(old(phys), pd, v, true))
      ensures ok && !found ==> AllSee(old(phys), phys, spaces)
      ensures ok && found ==> ByteSeen(old(phys), phys, spaces, pd, v, b)
      ensures ok ==> SameRights(old(phys), phys, spaces) && DirsOpen(old(phys), phys, spaces)
      ensures !ok ==> |pmm.free| == 0
    {
      var r;
      ok, r := Xlate(pd, v, true);
      found := r.Found?;
      if !ok { return; }
      if found {
        ghost var m := phys;
        FoundFrame(phys, spaces, uses, pmm.base, pd, v);
        var page := phys[r.frame];
        phys := phys[r.frame := page[r.off := b]];
        StoredByte(old(phys), m, phys, spaces, uses, pmm.base, pd, v, b);
        DataRights(m, phys, spaces, uses, pmm.base, r.frame);
        SameRightsTrans(old(phys), m, phys, spaces);
        DirsOpenTrans(old(phys), m, phys, spaces);
      }
    }

    /** Copies bytes into user space up to the first address that may not be written; n of them were written. */
    method Copyout(pd: nat, v: nat, data: seq<u8>) returns (ok: bool, n: nat)
      requires Valid() && pd in spaces && |data| <= 0x1_0000_0000
      modifies this, pmm
      ensures ok ==> Valid() && spaces == old(spaces) && n <= |data| && Written(old(phys), phys, spaces, pd, v, data, n)
      ensures ok && n < |data| ==> !Reachable(old(phys), pd, v + n, true)
      ensures !ok ==> |pmm.free| == 0
    {
      ghost var m := phys;
      n, ok := 0, true;
      while n < |data|
        invariant 0 <= n <= |data| && Valid() && spaces == old(spaces) && Written(m, phys, spaces, pd, v, data, n)
      {
        ghost var m1 := phys;
        var found;
        ok, found := StoreByte(pd, v + n, data[n]);
        if !ok { return; }
        if !found {
          WrittenKept(m, m1, phys, spaces, pd, v, data, n);
          return;
        }
        WrittenMore(m, m1, phys, spaces, pd, v, data, n);
        n := n + 1;
      }
    }

    /** Copies bytes out of user space; fails at the first address that does not translate. */
    method Copyin(pd: nat, v: nat, len: nat) returns (ok: bool, out: seq<u8>)
      requires Valid() && pd in spaces
      ensures ok <==> forall a :: v <= a < v + len ==> Reachable(phys, pd, a, false)
      ensures ok ==> |out| == len && forall a :: v <= a < v + len ==> out[a - v] == SeesAt(phys, pd, a)
    {
      out := [];
      var i := 0;
      while i < len
        invariant 0 <= i <= len && |out| == i
        invariant forall a :: v <= a < v + i ==> Reachable(phys, pd, a, false) && out[a - v] == SeesAt(phys, pd, a)
      {
        var r := Translate(phys, pd, v + i, false, true);
        TranslateIs(phys, pd, v + i, false);
        if !r.Found? {
          assert !Reachable(phys, pd, v + i, false);
          return false, out;
        }
        ReadFrame(phys, spaces, uses, pmm.base, pd, v + i);
        out := out + [phys[r.frame][r.off]];
        i := i + 1;
      }
      ok := true;
    }

    /** A fork whose child exits at once gives back every frame it took. */
    method ForkAndExit(src: nat) returns (ok: bool)
      requires Valid() && src in spaces
      modifies this, pmm
      ensures ok ==> Valid() && spaces == old(spaces) && uses == old(uses) && pmm.refs == old(pmm.refs)
      ensures ok ==> |pmm.free| == old(|pmm.free|) && AllSee(old(phys), phys, spaces)
      ensures !ok ==> |pmm.free| == 0
    {
      ghost var free, refs, was := pmm.free, pmm.refs, uses;
      var dst;
      ok, dst := CowCloneAddressSpace(src);
      if !ok { return; }
      FreeAddressSpace(dst);
      FreeSize(free, pmm.free, was, pmm.base, |phys|);
      SameCounts(refs, pmm.refs, was);
    }

    // ---- tearing a space down ----

    /** The invariant while space pd is being given up, use by use. */
    ghost predicate Dying(pd: nat, all: Uses, gone: set<Use>)
      reads this, pmm
    {
      && |phys| <= 0x10_0000 && pd in spaces
      && Tables(phys, spaces, uses, gone, pmm.base)
      && Counted(pmm.refs, uses) && FreeList(pmm.free, uses, pmm.base, |phys|)
      && Remaining(all, uses, gone) && forall u :: u in gone ==> u.pd == pd
    }

    /** Gives up one use. */
    method DropUse(f: nat, ghost pd: nat, ghost all: Uses, ghost gone: set<Use>, ghost u: Use)
      requires Dying(pd, all, gone) && ValidUse(u) && u.pd == pd && u !in gone && Frame(phys, u) == f
      modifies `uses, pmm
      ensures Dying(pd, all, gone + {u})
    {
      UseRecorded(phys, spaces, uses, gone, u);
      ghost var refs, free := pmm.refs, pmm.free;
      pmm.Release(f);
      UseDropped(phys, spaces, uses, gone, pmm.base, u, f);
      ReleasedUse(refs, free, uses, pmm.base, |phys|, f, u);
      RemainingDrop(phys, spaces, all, uses, gone, f, u);
      uses := Drop(uses, f, u);
    }

    /** Gives up one page of a table, if there is one. */
    method FreeEntry(ghost pd: nat, ghost di: nat, ti: nat, table: nat, ghost all: Uses,
                     ghost before: set<Use>) returns (ghost gone: set<Use>)
      requires Dying(pd, all, before) && di < 1024 && ti < 1024 && Table(phys, pd, di) == table
        && Map(pd, di, ti) !in before
      requires table < |phys|
      modifies `uses, pmm
      ensures Dying(pd, all, gone) && (Frame(phys, Map(pd, di, ti)) >= 0 ==> Map(pd, di, ti) in gone)
      ensures gone == before || gone == before + {Map(pd, di, ti)}
    {
      gone := before;
      var pte := Read32(phys[table], 4 * ti);
      PresentIs(pte);
      assert Frame(phys, Map(pd, di, ti)) == FrameOf(pte);
      if And(pte, P) != 0 {
        DropUse(pte / 4096, pd, all, gone, Map(pd, di, ti));
        gone := gone + {Map(pd, di, ti)};
      }
    }

    /** Gives up every page of one table, and then the table. */
    method FreeTable(ghost pd: nat, ghost di: nat, table: nat, ghost all: Uses,
                     ghost before: set<Use>) returns (ghost gone: set<Use>)
      requires Dying(pd, all, before) && di < 1024 && Table(phys, pd, di) == table
      requires Below(before, di)
      modifies `uses, pmm
      ensures Dying(pd, all, gone) && before <= gone && Tab(pd, di) in gone && RowDone(phys, pd, di, 1024, gone)
      ensures Below(gone, di + 1)
    {
      gone := before;
      assert Frame(phys, Tab(pd, di)) == table;
      UseRecorded(phys, spaces, uses, gone, Tab(pd, di));
      var ti := 0;
      while ti < 1024
        invariant 0 <= ti <= 1024 && Dying(pd, all, gone)
        invariant OnlyRow(gone, before, di, ti) && before <= gone && RowDone(phys, pd, di, ti, gone)
      {
        ghost var prior := gone;
        gone := FreeEntry(pd, di, ti, table, all, gone);
        RowStep(phys, pd, di, ti, before, prior, gone);
        ti := ti + 1;
      }
      DropUse(table, pd, all, gone, Tab(pd, di));
      gone := gone + {Tab(pd, di)};
    }

    /** Gives up every page, table and the directory of a space; physical memory itself is not
        touched, and what is left is exactly the uses of the other spaces. */
    method FreeAddressSpace(pd: nat)
      requires Valid() && pd in spaces
      modifies `uses, `spaces, pmm
      ensures Valid() && spaces == old(spaces) - {pd} && uses == Strip(old(uses), pd)
    {
      ghost var all := uses;
      ghost var inner := FreeTables(pd);
      DropUse(pd, pd, all, inner, Dir(pd));
      ghost var gone := inner + {Dir(pd)};
      WholeSpace(phys, pd, inner, gone);
      SpaceGone(phys, spaces, uses, gone, pmm.base, pd);
      AllGone(phys, spaces, all, uses, gone, pd, pmm.base);
      spaces := spaces - {pd};
    }

    method FreeTables(pd: nat) returns (ghost gone: set<Use>)
      requires Valid() && pd in spaces
      modifies `uses, pmm
      ensures Dying(pd, old(uses), gone) && Below(gone, 1024) && RowsDone(phys, pd, 1024, gone)
    {
      ghost var all := uses;
      gone := {};
      var di := 0;
      while di < 1024
        invariant 0 <= di <= 1024 && Dying(pd, all, gone) && Below(gone, di) && RowsDone(phys, pd, di, gone)
      {
        gone := FreeRow(pd, di, all, gone);
        di := di + 1;
      }
    }

    method FreeRow(pd: nat, di: nat, ghost all: Uses, ghost before: set<Use>) returns (ghost gone: set<Use>)
      requires Dying(pd, all, before) && di < 1024 && Below(before, di) && RowsDone(phys, pd, di, before)
      modifies `uses, pmm
      ensures Dying(pd, all, gone) && Below(gone, di + 1) && RowsDone(phys, pd, di + 1, gone)
    {
      assert Frame(phys, Dir(pd)) == pd;
      UseRecorded(phys, spaces, uses, before, Dir(pd));
      var pde := Read32(phys[pd], 4 * di);
      PresentIs(pde);
      assert Table(phys, pd, di) == FrameOf(pde);
      gone := before;
      if And(pde, P) != 0 {
        gone := FreeTable(pd, di, pde / 4096, all, gone);
        RowGone(phys, pd, di, before, gone);
      } else {
        RowEmpty(phys, pd, di);
      }
    }

    /** Writes one page-table entry. */
    method SetEntry(pd: nat, di: nat, ti: nat, frame: nat, flags: nat)
      requires Tables(phys, spaces, uses, {}, pmm.base) && pd in spaces && di < 1024 && ti < 1024
        && Table(phys, pd, di) >= 0
      requires frame < |phys| <= 0x10_0000 && frame !in uses
      modifies `phys
      ensures MapEntry(frame, flags) < 0x1_0000_0000 && FrameOf(MapEntry(frame, flags)) == frame
      ensures WordSet(old(phys), phys, Table(old(phys), pd, di), ti, MapEntry(frame, flags))
        && phys[frame] == old(phys)[frame]
      ensures Pte(phys, pd, di, ti) == MapEntry(frame, flags) && OnePage(old(phys), phys, spaces, pd, di, ti)
      ensures PageRight(old(phys), phys, spaces, pd, di, ti, Granted(flags))
    {
      ghost var m := phys;
      UseRecorded(phys, spaces, uses, {}, Dir(pd));
      assert Frame(phys, Dir(pd)) == pd && Frame(phys, Tab(pd, di)) == Table(phys, pd, di);
      UseRecorded(phys, spaces, uses, {}, Tab(pd, di));
      var table := Read32(phys[pd], 4 * di) / 4096;
      MapEntryIs(frame, flags);
      var word := MapEntry(frame, flags);
      phys := phys[table := Write32(phys[table], 4 * ti, word)];
      PteWritten(m, phys, spaces, uses, pmm.base, pd, di, ti, word, Map(pd, di, ti));
      EntryOnePage(m, phys, spaces, uses, pmm.base, pd, di, ti, word);
      EntryRights(m, phys, spaces, uses, pmm.base, pd, di, ti, word);
    }
  }

  /** Every page of every space is seen as before, but one. */
  ghost predicate OnePage(m: Memory, m': Memory, spaces: set<nat>, pd: nat, di: nat, ti: nat) {
    forall pd', di', ti', off {:trigger Sees(m', pd', di', ti', off)} ::
      pd' in spaces && 0 <= di' < 1024 && 0 <= ti' < 1024 && 0 <= off < 4096 && (pd', di', ti') != (pd, di, ti) ==>
      Sees(m', pd', di', ti', off) == Sees(m, pd', di', ti', off)
  }

  lemma OnePageTrans(m: Memory, m1: Memory, m2: Memory, spaces: set<nat>, pd: nat, di: nat, ti: nat)
    requires AllSee(m, m1, spaces) && OnePage(m1, m2, spaces, pd, di, ti)
    ensures OnePage(m, m2, spaces, pd, di, ti)
  {
    forall pd', di', ti', off | pd' in spaces && 0 <= di' < 1024 && 0 <= ti' < 1024 && 0 <= off < 4096
      && (pd', di', ti') != (pd, di, ti)
      ensures Sees(m2, pd', di', ti', off) == Sees(m, pd', di', ti', off)
    {
      assert SameView(m, pd', m1, pd');
      assert Sees(m1, pd', di', ti', off) == Sees(m, pd', di', ti', off);
    }
  }

  lemma MappedRight(m: Memory, m1: Memory, m2: Memory, m3: Memory, spaces: set<nat>, pd: nat, di: nat, ti: nat,
                    r: Right)
    requires SameRights(m, m1, spaces) && DirsOpen(m, m1, spaces) && SameRights(m1, m2, spaces)
      && DirsOpen(m1, m2, spaces)
    requires di < 1024 && ti < 1024 && pd in spaces && PageRight(m2, m3, spaces, pd, di, ti, r)
    ensures PageRight(m, m3, spaces, pd, di, ti, r)
  {
    PageRightAfter(m1, m2, m3, spaces, pd, di, ti, r);
    PageRightAfter(m, m1, m3, spaces, pd, di, ti, r);
  }

  lemma EntryOnePage(m: Memory, m': Memory, spaces: set<nat>, uses: Uses, lo: nat, pd: nat, di: nat, ti: nat, w: u32)
    requires Tables(m, spaces, uses, {}, lo) && pd in spaces && di < 1024 && ti < 1024 && Table(m, pd, di) >= 0
    requires WordSet(m, m', Table(m, pd, di), ti, w)
    ensures OnePage(m, m', spaces, pd, di, ti)
  {
    forall pd', di', ti', off | pd' in spaces && 0 <= di' < 1024 && 0 <= ti' < 1024 && 0 <= off < 4096
      && (pd', di', ti') != (pd, di, ti)
      ensures Sees(m', pd', di', ti', off) == Sees(m, pd', di', ti', off)
    {
      EntryViews(m, m', spaces, uses, lo, pd, di, ti, w, pd', di', ti', off);
    }
  }

  /** Where a user address leads. */
  lemma ReadFrame(m: Memory, spaces: set<nat>, uses: Uses, lo: nat, pd: nat, v: nat)
    requires Tables(m, spaces, uses, {}, lo) && pd in spaces && Translate(m, pd, v, false, true).Found?
    ensures var r := Translate(m, pd, v, false, true);
      r.frame < |m| && r.off < 4096 && m[r.frame][r.off] == SeesAt(m, pd, v)
  {
    TranslateIs(m, pd, v, false);
    var u := Map(pd, DirIndex(v), TableIndex(v));
    UseRecorded(m, spaces, uses, {}, u);
  }

  /** A page that may be written is no one else's. */
  lemma FoundFrame(m: Memory, spaces: set<nat>, uses: Uses, lo: nat, pd: nat, v: nat)
    requires Tables(m, spaces, uses, {}, lo) && pd in spaces && Translate(m, pd, v, true, true).Found?
    ensures var r, u := Translate(m, pd, v, true, true), Map(pd, DirIndex(v), TableIndex(v));
      r.frame < |m| && |m[r.frame]| == 4096 && r.off == Offset(v) && Frame(m, u) == r.frame && r.frame in uses
        && uses[r.frame] == {u}
  {
    TranslateIs(m, pd, v, true);
    var u := Map(pd, DirIndex(v), TableIndex(v));
    UseRecorded(m, spaces, uses, {}, u);
    assert MayWrite(m, u);
  }

  /** A use has moved from a frame to one that had none. */
  ghost predicate Moves(uses: Uses, uses': Uses, f: nat, u: Use) {
    f in uses && u in uses[f] && exists g: nat :: g !in uses && uses' == Drop(uses, f, u)[g := {u}]
  }

  /** Where others use the page's frame, it has moved to a frame of its own; otherwise nothing has. */
  ghost predicate Unshares(uses: Uses, uses': Uses, u: Use) {
    exists f :: f in uses && u in uses[f] && if uses[f] == {u} then uses' == uses else Moves(uses, uses', f, u)
  }

  /** The linear address of a byte of a page. */
  function Address(di: nat, ti: nat, off: nat): nat { di * 0x40_0000 + ti * 0x1000 + off }

  lemma AddressIs(v: nat)
    ensures Address(DirIndex(v), TableIndex(v), Offset(v)) == v % 0x1_0000_0000
  {
    var page := v / 4096;
    var n := page % 0x10_0000;
    PageIndex(v);
    DivDiv(v, 4096, 0x10_0000);
    DivDiv(page, 1024, 1024);
    DivModUnique(n, page / 1024 % 1024, page % 1024, 1024);
  }

  lemma AddressUnique(di: nat, ti: nat, off: nat, v: nat)
    requires di < 1024 && ti < 1024 && off < 4096 && Address(di, ti, off) == v % 0x1_0000_0000
    ensures di == DirIndex(v) && ti == TableIndex(v) && off == Offset(v)
  {
    AddressIs(v);
  }

  /** Where a byte at an address counts from v, the addresses wrapping around. */
  function Away(di: nat, ti: nat, off: nat, v: nat): nat { (Address(di, ti, off) - v) % 0x1_0000_0000 }

  lemma AwayIs(di: nat, ti: nat, off: nat, v: nat, n: nat)
    requires di < 1024 && ti < 1024 && off < 4096 && n < 0x1_0000_0000
    ensures Away(di, ti, off, v) == n <==> (di, ti, off) == (DirIndex(v + n), TableIndex(v + n), Offset(v + n))
  {
    AddressIs(v + n);
    var a := Address(di, ti, off);
    AwayWraps(a, v, n);
    if Away(di, ti, off, v) == n { AddressUnique(di, ti, off, v + n); }
  }

  lemma AwayWraps(a: nat, v: nat, n: nat)
    requires a < 0x1_0000_0000 && n < 0x1_0000_0000
    ensures (a - v) % 0x1_0000_0000 == n <==> a == (v + n) % 0x1_0000_0000
  {
    if a == (v + n) % 0x1_0000_0000 {
      var q := (v + n) / 0x1_0000_0000;
      DivModUnique(a - v, -q, n, 0x1_0000_0000);
    }
    if (a - v) % 0x1_0000_0000 == n {
      var q := (a - v) / 0x1_0000_0000;
      DivModUnique(v + n, -q, a, 0x1_0000_0000);
    }
  }

  /** One byte of one space changed. */
  ghost predicate ByteSeen(m: Memory, m': Memory, spaces: set<nat>, pd: nat, v: nat, b: u8) {
    forall pd', di, ti, off {:trigger Sees(m', pd', di, ti, off)} ::
      pd' in spaces && 0 <= di < 1024 && 0 <= ti < 1024 && 0 <= off < 4096 ==>
      Sees(m', pd', di, ti, off) == if pd' == pd
        && (di, ti, off) == (DirIndex(v), TableIndex(v), Offset(v)) then b else Sees(m, pd', di, ti, off)
  }

  /** The first n bytes of data are seen from v on in one space; nothing else changed for anyone. */
  ghost predicate BytesSeen(m: Memory, m': Memory, spaces: set<nat>, pd: nat, v: nat, data: seq<u8>, n: nat)
    requires n <= |data|
  {
    forall pd', di, ti, off {:trigger Sees(m', pd', di, ti, off)} ::
      pd' in spaces && 0 <= di < 1024 && 0 <= ti < 1024 && 0 <= off < 4096 ==>
      Sees(m', pd', di, ti, off) == if pd' == pd
        && Away(di, ti, off, v) < n then data[Away(di, ti, off, v)] else Sees(m, pd', di, ti, off)
  }

  lemma StoredByte(m0: Memory, m: Memory, m': Memory, spaces: set<nat>, uses: Uses, lo: nat, pd: nat, v: nat, b: u8)
    requires Tables(m, spaces, uses, {}, lo) && pd in spaces && AllSee(m0, m, spaces)
    requires var f := Frame(m, Map(pd, DirIndex(v), TableIndex(v)));
      f >= 0 && f in uses && uses[f] == {Map(pd, DirIndex(v), TableIndex(v))} && ByteSet(m, m', f, Offset(v), b)
    ensures Tables(m', spaces, uses, {}, lo) && ByteSeen(m0, m', spaces, pd, v, b)
  {
    ByteViews(m, m', spaces, uses, lo, pd, DirIndex(v), TableIndex(v), Offset(v), b);
    forall pd', di, ti, off | pd' in spaces && 0 <= di < 1024 && 0 <= ti < 1024 && 0 <= off < 4096
      ensures Sees(m', pd', di, ti, off) == if pd' == pd
        && (di, ti, off) == (DirIndex(v), TableIndex(v), Offset(v)) then b else Sees(m0, pd', di, ti, off)
    {
      assert SameView(m0, pd', m, pd');
      assert Sees(m, pd', di, ti, off) == Sees(m0, pd', di, ti, off);
    }
  }

  lemma SameReach(m: Memory, m': Memory, spaces: set<nat>, pd: nat, v: nat)
    requires SameRights(m, m', spaces) && pd in spaces
    ensures Reachable(m', pd, v, true) <==> Reachable(m, pd, v, true)
  {
    assert RightAt(m', pd, DirIndex(v), TableIndex(v)) == RightAt(m, pd, DirIndex(v), TableIndex(v));
  }

  lemma BytesKept(m: Memory, m1: Memory, m2: Memory, spaces: set<nat>, pd: nat, v: nat, data: seq<u8>, n: nat)
    requires n <= |data| && BytesSeen(m, m1, spaces, pd, v, data, n) && AllSee(m1, m2, spaces)
    ensures BytesSeen(m, m2, spaces, pd, v, data, n)
  {
    forall pd', di, ti, off | pd' in spaces && 0 <= di < 1024 && 0 <= ti < 1024 && 0 <= off < 4096
      ensures Sees(m2, pd', di, ti, off) == if pd' == pd
        && Away(di, ti, off, v) < n then data[Away(di, ti, off, v)] else Sees(m, pd', di, ti, off)
    {
      assert SameView(m1, pd', m2, pd');
      assert Sees(m2, pd', di, ti, off) == Sees(m1, pd', di, ti, off);
    }
  }

  lemma BytesMore(m: Memory, m1: Memory, m2: Memory, spaces: set<nat>, pd: nat, v: nat, data: seq<u8>, n: nat)
    requires n < |data| <= 0x1_0000_0000 && BytesSeen(m, m1, spaces, pd, v, data, n)
      && ByteSeen(m1, m2, spaces, pd, v + n, data[n])
    ensures BytesSeen(m, m2, spaces, pd, v, data, n + 1)
  {
    forall pd', di, ti, off | pd' in spaces && 0 <= di < 1024 && 0 <= ti < 1024 && 0 <= off < 4096
      ensures Sees(m2, pd', di, ti, off) == if pd' == pd
        && Away(di, ti, off, v) < n + 1 then data[Away(di, ti, off, v)] else Sees(m, pd', di, ti, off)
    {
      AwayIs(di, ti, off, v, n);
      assert Sees(m1, pd', di, ti, off) == if pd' == pd
        && Away(di, ti, off, v) < n then data[Away(di, ti, off, v)] else Sees(m, pd', di, ti, off);
    }
  }

  /** The first n bytes have been written from v on, all to addresses that may be written. */
  ghost predicate Written(m: Memory, m': Memory, spaces: set<nat>, pd: nat, v: nat, data: seq<u8>, n: nat)
    requires n <= |data|
  {
    && BytesSeen(m, m', spaces, pd, v, data, n) && SameRights(m, m', spaces) && DirsOpen(m, m', spaces)
    && forall a :: v <= a < v + n ==> Reachable(m, pd, a, true)
  }

  lemma WrittenKept(m: Memory, m1: Memory, m2: Memory, spaces: set<nat>, pd: nat, v: nat, data: seq<u8>, n: nat)
    requires pd in spaces && n <= |data| && Written(m, m1, spaces, pd, v, data, n) && AllSee(m1, m2, spaces)
    requires SameRights(m1, m2, spaces) && DirsOpen(m1, m2, spaces) && !Reachable(m1, pd, v + n, true)
    ensures Written(m, m2, spaces, pd, v, data, n) && !Reachable(m, pd, v + n, true)
  {
    BytesKept(m, m1, m2, spaces, pd, v, data, n);
    SameReach(m, m1, spaces, pd, v + n);
    SameRightsTrans(m, m1, m2, spaces);
    DirsOpenTrans(m, m1, m2, spaces);
  }

  lemma WrittenMore(m: Memory, m1: Memory, m2: Memory, spaces: set<nat>, pd: nat, v: nat, data: seq<u8>, n: nat)
    requires pd in spaces && n < |data| <= 0x1_0000_0000 && Written(m, m1, spaces, pd, v, data, n)
    requires ByteSeen(m1, m2, spaces, pd, v + n, data[n]) && SameRights(m1, m2, spaces) && DirsOpen(m1, m2, spaces)
    requires Reachable(m1, pd, v + n, true)
    ensures Written(m, m2, spaces, pd, v, data, n + 1)
  {
    BytesMore(m, m1, m2, spaces, pd, v, data, n);
    SameReach(m, m1, spaces, pd, v + n);
    SameRightsTrans(m, m1, m2, spaces);
    DirsOpenTrans(m, m1, m2, spaces);
  }

  // ---- loading ----

  /** The size of the pages a segment takes. */
  function Round(memSize: nat, dataSize: nat): (n: nat)
    ensures n % 4096 == 0 && memSize <= n && dataSize <= n && (n < memSize + 4096 || n < dataSize + 4096)
    ensures memSize <= 0x1_0000_0000 && dataSize <= 0x1_0000_0000 ==> n <= 0x1_0000_0000
  {
    var total := if memSize > dataSize then memSize else dataSize;
    (total + 4095) / 4096 * 4096
  }

  function Image(data: seq<u8>, total: nat): (s: seq<u8>)
    requires |data| <= total
    ensures |s| == total
  {
    seq(total, i requires 0 <= i < total => if i < |data| then data[i] else 0)
  }

  function Padded(chunk: seq<u8>): (s: seq<u8>)
    requires |chunk| <= 4096
    ensures |s| == 4096 && forall i :: 0 <= i < 4096 ==> s[i] == if i < |chunk| then chunk[i] else 0
  {
    Image(chunk, 4096)
  }

  /** The part of the data that goes into the page at off. */
  function Chunk(data: seq<u8>, off: nat): (s: seq<u8>)
    ensures |s| <= 4096
  {
    if off >= |data| then [] else if off + 4096 < |data| then data[off..off + 4096] else data[off..]
  }

  lemma ChunkIs(data: seq<u8>, total: nat, off: nat)
    requires |data| <= total && off + 4096 <= total
    ensures forall i :: 0 <= i < 4096 ==> Padded(Chunk(data, off))[i] == Image(data, total)[off + i]
  {
  }

  /** One page of one space shows these bytes; nothing else changed for anyone. */
  ghost predicate PageSeen(m: Memory, m': Memory, spaces: set<nat>, pd: nat, di: nat, ti: nat, page: seq<u8>)
    requires |page| == 4096
  {
    forall pd', di', ti', off {:trigger Sees(m', pd', di', ti', off)} ::
      pd' in spaces && 0 <= di' < 1024 && 0 <= ti' < 1024 && 0 <= off < 4096 ==>
      Sees(m', pd', di', ti', off) == if (pd', di', ti') == (pd, di, ti) then page[off] else Sees(m, pd', di', ti', off)
  }

  lemma UnmappedPage(m: Memory, spaces: set<nat>, uses: Uses, lo: nat, pd: nat, v: nat)
    requires Tables(m, spaces, uses, {}, lo) && pd in spaces && SeesAt(m, pd, v) == -1
    ensures FrameOf(Pte(m, pd, DirIndex(v), TableIndex(v))) == -1
  {
    var u := Map(pd, DirIndex(v), TableIndex(v));
    if Frame(m, u) >= 0 { UseRecorded(m, spaces, uses, {}, u); assert false; }
  }

  lemma Filled(m: Memory, m1: Memory, m2: Memory, spaces: set<nat>, pd: nat, di: nat, ti: nat, f: nat, chunk: seq<u8>)
    requires OnePage(m, m1, spaces, pd, di, ti) && ZeroPage(m1, f) && |m2| == |m1| && |chunk| <= 4096
      && m2[f] == chunk + m1[f][|chunk|..]
    requires PageSeen(m1, m2, spaces, pd, di, ti, m2[f])
    ensures PageSeen(m, m2, spaces, pd, di, ti, Padded(chunk))
  {
    forall pd', di', ti', off | pd' in spaces && 0 <= di' < 1024 && 0 <= ti' < 1024 && 0 <= off < 4096
      ensures Sees(m2, pd', di', ti', off) == if (pd', di', ti') == (pd, di, ti) then Padded(chunk)[off]
        else Sees(m, pd', di', ti', off)
    {
      if (pd', di', ti') != (pd, di, ti) { assert Sees(m1, pd', di', ti', off) == Sees(m, pd', di', ti', off); }
    }
  }

  /** The pages still to be loaded are still free. */
  lemma StillUnmapped(m: Memory, m1: Memory, spaces: set<nat>, pd: nat, v: nat, image: seq<u8>, off: nat)
    requires off < |image| <= 0x1_0000_0000 && pd in spaces && BytesSeen(m, m1, spaces, pd, v, image, off)
    requires forall a :: v <= a < v + |image| ==> SeesAt(m, pd, a) == -1
    ensures SeesAt(m1, pd, v + off) == -1
  {
    AwayIs(DirIndex(v + off), TableIndex(v + off), Offset(v + off), v, off);
    assert SeesAt(m, pd, v + off) == -1;
  }

  /** Bytes of an aligned page p, counted from the start of the segment. */
  lemma PageAway(di: nat, ti: nat, o: nat, v: nat, off: nat, p: nat)
    requires di < 1024 && ti < 1024 && o < 4096 && p == v + off && p % 4096 == 0 && off + 4096 <= 0x1_0000_0000
    ensures (di, ti) == (DirIndex(p), TableIndex(p)) ==> Away(di, ti, o, v) == off + o
    ensures off <= Away(di, ti, o, v) < off + 4096 ==> (di, ti) == (DirIndex(p), TableIndex(p))
  {
    InPage(p, o);
    AwayIs(di, ti, o, v, off + o);
    PageHolds(di, ti, o, v, off, p, Away(di, ti, o, v));
  }

  lemma PageHolds(di: nat, ti: nat, o: nat, v: nat, off: nat, p: nat, n: nat)
    requires di < 1024 && ti < 1024 && o < 4096 && p == v + off && p % 4096 == 0 && off + 4096 <= 0x1_0000_0000
    requires n == Away(di, ti, o, v)
    ensures off <= n < off + 4096 ==> (di, ti) == (DirIndex(p), TableIndex(p))
  {
    if off <= n < off + 4096 {
      AwayIs(di, ti, o, v, n);
      InPage(p, n - off);
    }
  }

  lemma InPage(p: nat, o: nat)
    requires p % 4096 == 0 && o < 4096
    ensures DirIndex(p + o) == DirIndex(p) && TableIndex(p + o) == TableIndex(p) && Offset(p + o) == o
  {
    DivModUnique(p + o, p / 4096, o, 4096);
    PageIndex(p);
    PageIndex(p + o);
  }

  /** The directory index comes from the page number. */
  lemma PageIndex(v: nat)
    ensures DirIndex(v) == v / 4096 % 0x10_0000 / 1024
  {
    DivDiv(v, 4096, 0x10_0000);
    var y := v % 0x1_0000_0000;
    DivDiv(y, 4096, 1024);
    DivModUnique(y, v / 4096 % 0x10_0000, v % 4096, 4096);
  }

  lemma PageAt(m: Memory, m1: Memory, m2: Memory, spaces: set<nat>, pd: nat, v: nat, image: seq<u8>, off: nat,
               page: seq<u8>, pd': nat, di: nat, ti: nat, o: nat)
    requires |page| == 4096 && off + 4096 <= |image| && pd' in spaces && di < 1024 && ti < 1024 && o < 4096
    requires BytesSeen(m, m1, spaces, pd, v, image, off)
      && PageSeen(m1, m2, spaces, pd, DirIndex(v + off), TableIndex(v + off), page)
    requires forall i :: 0 <= i < 4096 ==> page[i] == image[off + i]
    requires (di, ti) == (DirIndex(v + off), TableIndex(v + off)) ==> Away(di, ti, o, v) == off + o
    requires off <= Away(di, ti, o, v) < off + 4096 ==> (di, ti) == (DirIndex(v + off), TableIndex(v + off))
    ensures Sees(m2, pd', di, ti, o) == if pd' == pd
      && Away(di, ti, o, v) < off + 4096 then image[Away(di, ti, o, v)] else Sees(m, pd', di, ti, o)
  {
    assert Sees(m1, pd', di, ti, o) == if pd' == pd
      && Away(di, ti, o, v) < off then image[Away(di, ti, o, v)] else Sees(m, pd', di, ti, o);
  }

  lemma PageMore(m: Memory, m1: Memory, m2: Memory, spaces: set<nat>, pd: nat, v: nat, image: seq<u8>, off: nat,
                 page: seq<u8>)
    requires |page| == 4096 && off + 4096 <= |image| <= 0x1_0000_0000 && (v + off) % 4096 == 0
    requires BytesSeen(m, m1, spaces, pd, v, image, off)
      && PageSeen(m1, m2, spaces, pd, DirIndex(v + off), TableIndex(v + off), page)
    requires forall i :: 0 <= i < 4096 ==> page[i] == image[off + i]
    ensures BytesSeen(m, m2, spaces, pd, v, image, off + 4096)
  {
    forall pd', di, ti, o | pd' in spaces && 0 <= di < 1024 && 0 <= ti < 1024 && 0 <= o < 4096
      ensures Sees(m2, pd', di, ti, o) == if pd' == pd
        && Away(di, ti, o, v) < off + 4096 then image[Away(di, ti, o, v)] else Sees(m, pd', di, ti, o)
    {
      PageAway(di, ti, o, v, off, v + off);
      PageAt(m, m1, m2, spaces, pd, v, image, off, page, pd', di, ti, o);
    }
  }

  /** The user has right r to the pages of one space that lie within n bytes from v on; no other right has
      changed. */
  ghost predicate RangeRight(m: Memory, m': Memory, spaces: set<nat>, pd: nat, v: nat, n: nat, r: Right) {
    && DirsOpen(m, m', spaces)
    && forall pd', di, ti {:trigger RightAt(m', pd', di, ti)} :: pd' in spaces && 0 <= di < 1024 && 0 <= ti < 1024 ==>
      if pd' == pd && Away(di, ti, 0, v) < n then Open(m, pd) ==> RightAt(m', pd', di, ti) == r
      else RightAt(m', pd', di, ti) == RightAt(m, pd', di, ti)
  }

  lemma RangeAt(m: Memory, m1: Memory, m2: Memory, spaces: set<nat>, pd: nat, v: nat, off: nat, r: Right, pd': nat,
                di: nat, ti: nat)
    requires RangeRight(m, m1, spaces, pd, v, off, r)
      && RightsBut(m1, m2, spaces, pd, DirIndex(v + off), TableIndex(v + off))
    requires Open(m, pd) ==> RightAt(m2, pd, DirIndex(v + off), TableIndex(v + off)) == r
    requires pd' in spaces && di < 1024 && ti < 1024
    requires (di, ti) == (DirIndex(v + off), TableIndex(v + off)) <==> off <= Away(di, ti, 0, v) < off + 4096
    ensures if pd' == pd && Away(di, ti, 0, v) < off + 4096 then Open(m, pd) ==> RightAt(m2, pd', di, ti) == r
      else RightAt(m2, pd', di, ti) == RightAt(m, pd', di, ti)
  {
    if (pd', di, ti) != (pd, DirIndex(v + off), TableIndex(v + off)) {
      assert RightAt(m2, pd', di, ti) == RightAt(m1, pd', di, ti);
    }
  }

  lemma RangeNext(m: Memory, m1: Memory, m2: Memory, spaces: set<nat>, pd: nat, v: nat, off: nat, r: Right, pd': nat,
                  di: nat, ti: nat)
    requires RangeRight(m, m1, spaces, pd, v, off, r)
      && RightsBut(m1, m2, spaces, pd, DirIndex(v + off), TableIndex(v + off))
    requires Open(m, pd) ==> RightAt(m2, pd, DirIndex(v + off), TableIndex(v + off)) == r
    requires pd' in spaces && di < 1024 && ti < 1024 && off + 4096 <= 0x1_0000_0000 && (v + off) % 4096 == 0
    ensures if pd' == pd && Away(di, ti, 0, v) < off + 4096 then Open(m, pd) ==> RightAt(m2, pd', di, ti) == r
      else RightAt(m2, pd', di, ti) == RightAt(m, pd', di, ti)
  {
    PageAway(di, ti, 0, v, off, v + off);
    RangeAt(m, m1, m2, spaces, pd, v, off, r, pd', di, ti);
  }

  lemma RangeMore(m: Memory, m1: Memory, m2: Memory, spaces: set<nat>, pd: nat, v: nat, off: nat, r: Right)
    requires off + 4096 <= 0x1_0000_0000 && (v + off) % 4096 == 0 && pd in spaces
    requires RangeRight(m, m1, spaces, pd, v, off, r)
      && PageRight(m1, m2, spaces, pd, DirIndex(v + off), TableIndex(v + off), r)
    ensures RangeRight(m, m2, spaces, pd, v, off + 4096, r)
  {
    DirsOpenTrans(m, m1, m2, spaces);
    if Open(m, pd) { OpenKept(m, m1, spaces, pd); }
    forall pd', di, ti | pd' in spaces && 0 <= di < 1024 && 0 <= ti < 1024
      ensures if pd' == pd && Away(di, ti, 0, v) < off + 4096 then Open(m, pd) ==> RightAt(m2, pd', di, ti) == r
        else RightAt(m2, pd', di, ti) == RightAt(m, pd', di, ti)
    {
      RangeNext(m, m1, m2, spaces, pd, v, off, r, pd', di, ti);
    }
  }

  lemma PageRoom(off: nat, total: nat)
    requires off < total && off % 4096 == 0 && total % 4096 == 0
    ensures off + 4096 <= total
  {
  }

  lemma NextPage(a: nat)
    requires a % 4096 == 0
    ensures (a + 4096) % 4096 == 0
  {
  }

  /** The first n bytes of a segment are in place: one space sees them, with right r to their pages, and
      nothing else has changed for anyone. */
  ghost predicate Laid(m: Memory, m': Memory, spaces: set<nat>, pd: nat, v: nat, image: seq<u8>, n: nat, r: Right)
    requires n <= |image|
  {
    BytesSeen(m, m', spaces, pd, v, image, n) && RangeRight(m, m', spaces, pd, v, n, r)
  }

  lemma LaidMore(m: Memory, m1: Memory, m2: Memory, spaces: set<nat>, pd: nat, v: nat, data: seq<u8>, total: nat,
                 off: nat, r: Right)
    requires pd in spaces && |data| <= total <= 0x1_0000_0000 && off + 4096 <= total && (v + off) % 4096 == 0
    requires Laid(m, m1, spaces, pd, v, Image(data, total), off, r)
    requires PageSeen(m1, m2, spaces, pd, DirIndex(v + off), TableIndex(v + off), Padded(Chunk(data, off)))
    requires PageRight(m1, m2, spaces, pd, DirIndex(v + off), TableIndex(v + off), r)
    ensures Laid(m, m2, spaces, pd, v, Image(data, total), off + 4096, r)
  {
    ChunkIs(data, total, off);
    PageMore(m, m1, m2, spaces, pd, v, Image(data, total), off, Padded(Chunk(data, off)));
    RangeMore(m, m1, m2, spaces, pd, v, off, r);
  }

  // ---- frames come back ----

  function Elements(s: seq<nat>): set<nat> { set x | x in s }

  lemma {:induction false} DistinctSize(s: seq<nat>)
    requires forall i, j :: 0 <= i < j < |s| ==> s[i] != s[j]
    ensures |Elements(s)| == |s|
  {
    if s == [] {
      assert Elements(s) == {};
    } else {
      var last, rest := s[|s| - 1], s[..|s| - 1];
      DistinctSize(rest);
      assert s == rest + [last];
      assert Elements(s) == Elements(rest) + {last};
      assert last !in Elements(rest);
    }
  }

  lemma SameCounts(a: map<nat, nat>, b: map<nat, nat>, uses: Uses)
    requires Counted(a, uses) && Counted(b, uses)
    ensures a == b
  {
    assert forall f :: f in a ==> f in uses && f in b;
  }

  /** The same uses leave the same number of free frames. */
  lemma FreeSize(a: seq<nat>, b: seq<nat>, uses: Uses, lo: nat, hi: nat)
    requires FreeList(a, uses, lo, hi) && FreeList(b, uses, lo, hi)
    ensures |a| == |b|
  {
    DistinctSize(a);
    DistinctSize(b);
    assert Elements(a) == Elements(b);
  }

  /** A use moved away without its reference being dropped leaves the counts wrong. */
  lemma Miscounted(refs: map<nat, nat>, uses: Uses, f: nat, u: Use, g: nat)
    requires Counted(refs, uses[g := {u}]) && f in uses && u in uses[f] && g !in uses
    ensures !Counted(refs, Drop(uses, f, u)[g := {u}])
  {
    if uses[f] == {u} {
      assert f in refs;
    } else {
      assert |uses[f] - {u}| == |uses[f]| - 1;
      assert refs[f] == |uses[f]|;
    }
  }

  lemma TableStep(m: Memory, m': Memory, spaces: set<nat>, uses: Uses, lo: nat, pd: nat, di: nat, w: u32, t: nat)
    requires Tables(m, spaces, uses, {}, lo) && pd in spaces && di < 1024 && Table(m, pd, di) == -1
    requires WordSet(m, m', pd, di, w) && FrameOf(w) == t && lo <= t && t !in uses && ZeroPage(m, t)
    ensures Tables(m', spaces, uses[t := {Tab(pd, di)}], {}, lo) && Table(m', pd, di) == t
    ensures AllSee(m, m', spaces) && SamePtes(m, m', spaces) && SameBut(m, m', spaces, Tab(pd, di))
  {
    TableRecorded(m, m', spaces, uses, lo, pd, di, w, t);
    TableViews(m, m', spaces, uses, lo, pd, di, w, t);
    forall pd', di', ti | pd' in spaces && 0 <= di' < 1024 && 0 <= ti < 1024
      ensures Pte(m', pd', di', ti) == Pte(m, pd', di', ti)
    {
      assert ValidUse(Map(pd', di', ti));
    }
  }

  lemma SamePtesTrans(m: Memory, m1: Memory, m2: Memory, spaces: set<nat>)
    requires SamePtes(m, m1, spaces) && SamePtes(m1, m2, spaces)
    ensures SamePtes(m, m2, spaces)
  {
    forall pd, di, ti | pd in spaces && 0 <= di < 1024 && 0 <= ti < 1024
      ensures Pte(m2, pd, di, ti) == Pte(m, pd, di, ti)
    {
      assert Pte(m1, pd, di, ti) == Pte(m, pd, di, ti);
    }
  }

  /** A pending frame enters the tables. */
  lemma MoveIn(uses: Uses, pend: Uses, t: nat, us: set<Use>)
    requires t !in uses && t !in pend
    ensures uses + pend[t := us] == uses[t := us] + pend
  {
  }

  /** No entry of any live space has changed. */
  ghost predicate SamePtes(m: Memory, m': Memory, spaces: set<nat>) {
    forall pd, di, ti {:trigger Pte(m', pd, di, ti)} :: pd in spaces && 0 <= di < 1024 && 0 <= ti < 1024 ==>
      Pte(m', pd, di, ti) == Pte(m, pd, di, ti)
  }

  /** Every frame in use, but perhaps one, is used for what it was. */
  ghost predicate SameBut(m: Memory, m': Memory, spaces: set<nat>, u: Use) {
    forall v {:trigger Frame(m', v)} :: ValidUse(v) && v.pd in spaces && v != u ==> Frame(m', v) == Frame(m, v)
  }

  lemma SameButTrans(m: Memory, m1: Memory, m2: Memory, spaces: set<nat>, u: Use)
    requires SameBut(m, m1, spaces, u) && SameBut(m1, m2, spaces, u)
    ensures SameBut(m, m2, spaces, u)
  {
    forall v | ValidUse(v) && v.pd in spaces && v != u ensures Frame(m2, v) == Frame(m, v) {
      assert Frame(m1, v) == Frame(m, v);
    }
  }

  /** At most a table was added. */
  ghost predicate TableMade(uses: Uses, uses': Uses, u: Use) {
    uses' == uses || exists t: nat :: t !in uses && uses' == uses[t := {u}]
  }

  lemma FreshPtes(m: Memory, m': Memory, spaces: set<nat>, uses: Uses, lo: nat, f: nat)
    requires Tables(m, spaces, uses, {}, lo) && f !in uses && |m'| == |m|
    requires forall g :: 0 <= g < |m| && g != f ==> m'[g] == m[g]
    ensures SamePtes(m, m', spaces)
    ensures forall u :: ValidUse(u) && u.pd in spaces ==> Frame(m', u) == Frame(m, u)
  {
    forall u | ValidUse(u) && u.pd in spaces
      ensures Frame(m', u) == Frame(m, u) && (u.Map? ==> Pte(m', u.pd, u.di, u.ti) == Pte(m, u.pd, u.di, u.ti))
    {
      DataFrames(m, m', spaces, uses, lo, f, u);
    }
    forall pd, di, ti | pd in spaces && 0 <= di < 1024 && 0 <= ti < 1024
      ensures Pte(m', pd, di, ti) == Pte(m, pd, di, ti)
    {
      DataFrames(m, m', spaces, uses, lo, f, Map(pd, di, ti));
    }
  }

  lemma SwapUse(refs: map<nat, nat>, free: seq<nat>, uses: Uses, lo: nat, hi: nat, f: nat, u: Use, v: Use)
    requires Counted(refs, uses[f := {u}]) && FreeList(free, uses[f := {u}], lo, hi)
    ensures Counted(refs, uses[f := {v}]) && FreeList(free, uses[f := {v}], lo, hi)
  {
    assert uses[f := {u}].Keys == uses[f := {v}].Keys;
  }

  lemma EntryMovedOn(m: Memory, m': Memory, spaces: set<nat>, uses: Uses, lo: nat, pd: nat, di: nat, ti: nat, w: u32,
                     f: nat, g: nat)
    requires Tables(m, spaces, uses, {}, lo) && pd in spaces && di < 1024 && ti < 1024 && Table(m, pd, di) >= 0
    requires WordSet(m, m', Table(m, pd, di), ti, w) && FrameOf(Pte(m, pd, di, ti)) == f && FrameOf(w) == g
    requires lo <= g < |m| && g !in uses && f in uses && m[g] == m[f]
    ensures Map(pd, di, ti) in uses[f]
      && Tables(m', spaces, Drop(uses, f, Map(pd, di, ti))[g := {Map(pd, di, ti)}], {}, lo)
    ensures AllSee(m, m', spaces) && Pte(m', pd, di, ti) == w && Word(m', pd, di) == Word(m, pd, di)
  {
    PteMoved(m, m', spaces, uses, lo, pd, di, ti, w, f, g);
    assert Frame(m, Tab(pd, di)) == Table(m, pd, di);
    UseRecorded(m, spaces, uses, {}, Tab(pd, di));
    SameEntryViews(m, m', spaces, uses, lo, pd, di, ti, w, f);
    PteWritten(m, m', spaces, uses, lo, pd, di, ti, w, Map(pd, di, ti));
    DirWritten(m, m', spaces, uses, lo, pd, di, ti, w, pd, di);
  }

  // ---- sharing ----

  /** Only mappings, none of which may write. */
  ghost predicate NoWriters(m: Memory, us: set<Use>) {
    forall v :: v in us ==> v.Map? && ValidUse(v) && !MayWrite(m, v)
  }

  lemma Protected(m: Memory, m': Memory, spaces: set<nat>, uses: Uses, lo: nat, pd: nat, di: nat, ti: nat, w: u32,
                  f: nat)
    requires Tables(m, spaces, uses, {}, lo) && pd in spaces && di < 1024 && ti < 1024 && Table(m, pd, di) >= 0
    requires WordSet(m, m', Table(m, pd, di), ti, w) && FrameOf(Pte(m, pd, di, ti)) == f == FrameOf(w)
      && f != Table(m, pd, di)
    requires f in uses && Map(pd, di, ti) in uses[f] && !Writable(w)
    ensures Tables(m', spaces, uses, {}, lo) && AllSee(m, m', spaces) && SameBut(m, m', spaces, Dir(pd))
    ensures Pte(m', pd, di, ti) == w && NoWriters(m', uses[f])
  {
    PteFlags(m, m', spaces, uses, lo, pd, di, ti, w);
    SameEntryViews(m, m', spaces, uses, lo, pd, di, ti, w, f);
    PteFrames(m, m', spaces, uses, lo, pd, di, ti, w);
    assert Frame(m', Map(pd, di, ti)) == Frame(m, Map(pd, di, ti));
    Unwritten(m', spaces, uses, lo, f, Map(pd, di, ti));
  }

  /** If one mapping of a page may not write, none may. */
  lemma Unwritten(m: Memory, spaces: set<nat>, uses: Uses, lo: nat, f: nat, u: Use)
    requires Tables(m, spaces, uses, {}, lo) && f in uses && u in uses[f] && ValidUse(u) && u.Map? && !MayWrite(m, u)
    ensures NoWriters(m, uses[f])
  {
    forall v | v in uses[f] ensures v.Map? && ValidUse(v) && !MayWrite(m, v) {
      assert Frame(m, v) == f;
    }
  }

  lemma SharedCounts(refs: map<nat, nat>, free: seq<nat>, uses: Uses, lo: nat, hi: nat, f: nat, u: Use)
    requires Counted(refs, uses) && FreeList(free, uses, lo, hi) && f in uses && u !in uses[f]
    ensures f in refs && Counted(refs[f := refs[f] + 1], Add(uses, f, u)) && FreeList(free, Add(uses, f, u), lo, hi)
  {
    CountedAdd(refs, uses, f, u);
    FreeSame(free, uses, Add(uses, f, u), lo, hi);
  }

  lemma Shared(m: Memory, m': Memory, spaces: set<nat>, uses: Uses, lo: nat, pd: nat, di: nat, ti: nat, w: u32, f: nat)
    requires Tables(m, spaces, uses, {}, lo) && pd in spaces && di < 1024 && ti < 1024 && Table(m, pd, di) >= 0
    requires WordSet(m, m', Table(m, pd, di), ti, w) && FrameOf(Pte(m, pd, di, ti)) == -1 && FrameOf(w) == f
      && !Writable(w)
    requires f in uses && NoWriters(m, uses[f])
    ensures Tables(m', spaces, Add(uses, f, Map(pd, di, ti)), {}, lo) && Map(pd, di, ti) !in uses[f]
    ensures OnePage(m, m', spaces, pd, di, ti) && SameBut(m, m', spaces, Map(pd, di, ti)) && Pte(m', pd, di, ti) == w
  {
    PteMapped(m, m', spaces, uses, lo, pd, di, ti, w, f);
    EntryOnePage(m, m', spaces, uses, lo, pd, di, ti, w);
    PteFrames(m, m', spaces, uses, lo, pd, di, ti, w);
  }

  // ---- fork ----

  predicate Before(d: nat, t: nat, di: nat, ti: nat) { d < di || (d == di && t < ti) }

  ghost predicate Copied(m: Memory, src: nat, dst: nat, di: nat, ti: nat) {
    forall d, t {:trigger Frame(m, Map(dst, d, t))} :: 0 <= d < 1024 && 0 <= t < 1024 ==>
      Frame(m, Map(dst, d, t)) == if Before(d, t, di, ti) then Frame(m, Map(src, d, t)) else -1
  }

  /** The uses of all spaces but dst are what they were, and dst had none. */
  ghost predicate Outside(had: Uses, uses: Uses, dst: nat) {
    forall f, u {:trigger Has(uses, f, u)} {:trigger Has(had, f, u)} :: Has(had, f, u) <==>
      Has(uses, f, u) && u.pd != dst
  }

  lemma OutsideNew(m: Memory, was: set<nat>, had: Uses, lo: nat, dst: nat)
    requires Tables(m, was, had, {}, lo) && dst !in was && dst !in had
    ensures Outside(had, had[dst := {Dir(dst)}], dst)
  {
    forall f, u ensures Has(had, f, u) <==> Has(had[dst := {Dir(dst)}], f, u) && u.pd != dst {
      if Has(had, f, u) { assert u.pd in was; }
    }
  }

  lemma CopiedNothing(m: Memory, src: nat, dst: nat)
    requires forall u :: ValidUse(u) && u.pd == dst && !u.Dir? ==> Frame(m, u) == -1
    ensures Copied(m, src, dst, 0, 0)
  {
  }

  lemma CopiedRow(m: Memory, src: nat, dst: nat, di: nat)
    requires Copied(m, src, dst, di, 1024)
    ensures Copied(m, src, dst, di + 1, 0)
  {
  }

  lemma CopiedRowEmpty(m: Memory, src: nat, dst: nat, di: nat)
    requires Copied(m, src, dst, di, 0) && di < 1024
    requires forall u :: ValidUse(u) && u.pd == src && !u.Dir? && u.di == di ==> Frame(m, u) == -1
    ensures Copied(m, src, dst, di + 1, 0)
  {
    forall d, t | 0 <= d < 1024 && 0 <= t < 1024
      ensures Frame(m, Map(dst, d, t)) == if Before(d, t, di + 1, 0) then Frame(m, Map(src, d, t)) else -1
    {
      if d == di { assert Frame(m, Map(src, d, t)) == -1; }
    }
  }

  /** Spaces that map the same frames see the same. */
  lemma CopiedAll(m: Memory, m': Memory, was: set<nat>, src: nat, dst: nat)
    requires Copied(m', src, dst, 1024, 0) && src in was && AllSee(m, m', was)
    ensures SameView(m, src, m', dst)
  {
    forall di, ti, off | 0 <= di < 1024 && 0 <= ti < 1024 && 0 <= off < 4096
      ensures Sees(m', dst, di, ti, off) == Sees(m, src, di, ti, off)
    {
      assert Frame(m', Map(dst, di, ti)) == Frame(m', Map(src, di, ti));
      assert SameView(m, src, m', src);
      assert Sees(m', src, di, ti, off) == Sees(m, src, di, ti, off);
    }
  }

  lemma CopiedNone(m: Memory, src: nat, dst: nat, di: nat, ti: nat)
    requires Copied(m, src, dst, di, ti) && di < 1024 && ti < 1024 && Frame(m, Map(src, di, ti)) == -1
    ensures Copied(m, src, dst, di, ti + 1)
  {
  }

  /** After the parent's entry is protected and the child's table exists, the frame is still there to
      be shared. */
  lemma Chain12(m: Memory, m1: Memory, m2: Memory, spaces: set<nat>, u: Uses, u2: Uses, lo: nat, src: nat, dst: nat,
                di: nat, ti: nat, f: nat)
    requires di < 1024 && ti < 1024 && src in spaces && dst in spaces && src != dst && |m1| == |m2|
    requires Tables(m1, spaces, u, {}, lo) && Tables(m2, spaces, u2, {}, lo)
    requires Frame(m, Map(src, di, ti)) == f && f in u && NoWriters(m1, u[f]) && Frame(m, Map(dst, di, ti)) == -1
    requires SameBut(m, m1, spaces, Dir(src)) && SameBut(m1, m2, spaces, Tab(dst, di)) && SamePtes(m1, m2, spaces)
    requires TableMade(u, u2, Tab(dst, di))
    ensures f in u2 && f < |m2| && NoWriters(m2, u2[f]) && FrameOf(Pte(m2, dst, di, ti)) == -1
    ensures SameBut(m, m2, spaces, Tab(dst, di))
  {
    forall v | ValidUse(v) && v.pd in spaces && v != Tab(dst, di) ensures Frame(m2, v) == Frame(m, v) {
      assert Frame(m1, v) == Frame(m, v);
    }
    assert Frame(m1, Map(src, di, ti)) == f && Frame(m1, Map(dst, di, ti)) == -1;
    assert f in u2 && u2[f] == u[f];
    StillNoWriters(m1, m2, spaces, u, lo, f);
    assert Frame(m2, Map(dst, di, ti)) == Frame(m1, Map(dst, di, ti));
    assert Frame(m2, Map(src, di, ti)) == f;
  }

  lemma StillNoWriters(m: Memory, m': Memory, spaces: set<nat>, uses: Uses, lo: nat, f: nat)
    requires Tables(m, spaces, uses, {}, lo) && SamePtes(m, m', spaces) && f in uses && NoWriters(m, uses[f])
    ensures NoWriters(m', uses[f])
  {
    forall v | v in uses[f] ensures v.Map? && ValidUse(v) && !MayWrite(m', v) {
      assert Frame(m, v) == f;
      assert Pte(m', v.pd, v.di, v.ti) == Pte(m, v.pd, v.di, v.ti);
    }
  }

  lemma CloneStep(m: Memory, m0: Memory, m2: Memory, m3: Memory, was: set<nat>, spaces: set<nat>, src: nat, dst: nat,
                  di: nat, ti: nat, f: nat)
    requires di < 1024 && ti < 1024 && src in was && dst !in was && spaces == was + {dst}
    requires AllSee(m, m0, was) && AllSee(m0, m2, spaces) && OnePage(m2, m3, spaces, dst, di, ti)
    requires Copied(m0, src, dst, di, ti) && Frame(m0, Map(src, di, ti)) == f && Frame(m3, Map(dst, di, ti)) == f
    requires SameBut(m0, m2, spaces, Tab(dst, di)) && SameBut(m2, m3, spaces, Map(dst, di, ti))
    ensures AllSee(m, m3, was) && Copied(m3, src, dst, di, ti + 1) && Table(m3, src, di) == Table(m0, src, di)
  {
    forall v | ValidUse(v) && v.pd in spaces && v != Tab(dst, di) && v != Map(dst, di, ti)
      ensures Frame(m3, v) == Frame(m0, v)
    {
      assert Frame(m2, v) == Frame(m0, v);
    }
    assert Frame(m3, Tab(src, di)) == Frame(m0, Tab(src, di));
    forall d, t | 0 <= d < 1024 && 0 <= t < 1024
      ensures Frame(m3, Map(dst, d, t)) == if Before(d, t, di, ti + 1) then Frame(m3, Map(src, d, t)) else -1
    {
      assert Frame(m3, Map(src, d, t)) == Frame(m0, Map(src, d, t));
      assert Frame(m0, Map(dst, d, t)) == if Before(d, t, di, ti) then Frame(m0, Map(src, d, t)) else -1;
    }
    ClonedViews(m, m0, m2, m3, was, spaces, dst, di, ti);
  }

  lemma ClonedViews(m: Memory, m0: Memory, m2: Memory, m3: Memory, was: set<nat>, spaces: set<nat>, dst: nat, di: nat,
                    ti: nat)
    requires dst !in was && was <= spaces
    requires AllSee(m, m0, was) && AllSee(m0, m2, spaces) && OnePage(m2, m3, spaces, dst, di, ti)
    ensures AllSee(m, m3, was)
  {
    forall pd, d, t, off | pd in was && 0 <= d < 1024 && 0 <= t < 1024 && 0 <= off < 4096
      ensures Sees(m3, pd, d, t, off) == Sees(m, pd, d, t, off)
    {
      assert SameView(m, pd, m0, pd) && SameView(m0, pd, m2, pd);
      assert Sees(m0, pd, d, t, off) == Sees(m, pd, d, t, off);
      assert Sees(m2, pd, d, t, off) == Sees(m0, pd, d, t, off);
    }
  }

  /** The rights while dst becomes a clone of src: pages before (di, ti) have the forked rights in both. */
  ghost predicate ClonedRights(m: Memory, m': Memory, was: set<nat>, src: nat, dst: nat, di: nat, ti: nat) {
    && (forall pd, d, t {:trigger RightAt(m', pd, d, t)} :: pd in was && 0 <= d < 1024 && 0 <= t < 1024 ==>
        RightAt(m', pd, d, t) == if pd == src
          && Before(d, t, di, ti) then Forked(RightAt(m, pd, d, t)) else RightAt(m, pd, d, t))
    && (forall d, t {:trigger RightAt(m', dst, d, t)} :: 0 <= d < 1024 && 0 <= t < 1024 ==>
        RightAt(m', dst, d, t) == if Before(d, t, di, ti) then Forked(RightAt(m, src, d, t)) else NoRight)
  }

  lemma ClonedNothing(m: Memory, m': Memory, was: set<nat>, src: nat, dst: nat)
    requires SameRights(m, m', was) && Bare(m', dst) && dst !in was
    ensures ClonedRights(m, m', was, src, dst, 0, 0)
  {
  }

  lemma ClonedNone(m: Memory, m': Memory, was: set<nat>, src: nat, dst: nat, di: nat, ti: nat)
    requires ClonedRights(m, m', was, src, dst, di, ti) && src in was && di < 1024 && ti < 1024
      && !Present(Pte(m', src, di, ti))
    ensures ClonedRights(m, m', was, src, dst, di, ti + 1)
  {
    assert RightAt(m', src, di, ti) == NoRight;
  }

  lemma ClonedRowEmpty(m: Memory, m': Memory, was: set<nat>, src: nat, dst: nat, di: nat)
    requires ClonedRights(m, m', was, src, dst, di, 0) && src in was && di < 1024 && Table(m', src, di) == -1
    ensures ClonedRights(m, m', was, src, dst, di + 1, 0)
  {
    forall t | 0 <= t < 1024 ensures RightAt(m, src, di, t) == NoRight {
      assert RightAt(m', src, di, t) == NoRight;
    }
  }

  lemma ClonedRow(m: Memory, m': Memory, was: set<nat>, src: nat, dst: nat, di: nat)
    requires ClonedRights(m, m', was, src, dst, di, 1024)
    ensures ClonedRights(m, m', was, src, dst, di + 1, 0)
  {
  }

  lemma ClonedDirs(m: Memory, m0: Memory, m2: Memory, m3: Memory, was: set<nat>, spaces: set<nat>, dst: nat)
    requires spaces == was + {dst} && DirsOpen(m, m0, was) && DirsOpen(m0, m2, spaces) && DirsOpen(m2, m3, spaces)
      && Open(m0, dst)
    ensures DirsOpen(m, m3, was) && Open(m3, dst) && Open(m2, dst)
  {
    DirsOpenTrans(m0, m2, m3, spaces);
    OpenKept(m0, m2, spaces, dst);
    OpenKept(m2, m3, spaces, dst);
    assert DirsOpen(m0, m3, was);
    DirsOpenTrans(m, m0, m3, was);
  }

  /** One page of the parent is shared with the child. */
  lemma ClonedPage(m: Memory, m0: Memory, m2: Memory, m3: Memory, was: set<nat>, spaces: set<nat>, src: nat, dst: nat,
                   di: nat, ti: nat, pte: u32)
    requires spaces == was + {dst} && src in was && dst !in was && di < 1024 && ti < 1024
    requires ClonedRights(m, m0, was, src, dst, di, ti) && Open(m, src) && DirsOpen(m, m0, was) && Open(m2, dst)
    requires pte == Pte(m0, src, di, ti) && Present(pte) && PageForked(m0, m2, spaces, src, di, ti)
    requires PageRight(m2, m3, spaces, dst, di, ti, Granted(CowFlags(pte)))
    ensures ClonedRights(m, m3, was, src, dst, di, ti + 1)
  {
    SharedEntryIs(pte);
    OpenKept(m, m0, was, src);
    assert Present(Word(m0, src, di)) by { if !Present(Word(m0, src, di)) { NoTable(m0, src, di, ti); } }
    assert RightAt(m0, src, di, ti) == RightOf(pte);
    ClonedStep(m, m0, m2, m3, was, spaces, src, dst, di, ti);
  }

  lemma ClonedStep(m: Memory, m0: Memory, m2: Memory, m3: Memory, was: set<nat>, spaces: set<nat>, src: nat, dst: nat,
                   di: nat, ti: nat)
    requires spaces == was + {dst} && src in was && dst !in was && di < 1024 && ti < 1024
    requires ClonedRights(m, m0, was, src, dst, di, ti)
    requires RightsBut(m0, m2, spaces, src, di, ti) && RightAt(m2, src, di, ti) == Forked(RightAt(m0, src, di, ti))
    requires RightsBut(m2, m3, spaces, dst, di, ti) && RightAt(m3, dst, di, ti) == Forked(RightAt(m0, src, di, ti))
    ensures ClonedRights(m, m3, was, src, dst, di, ti + 1)
  {
    assert RightAt(m0, src, di, ti) == RightAt(m, src, di, ti);
    forall pd, d, t | pd in was && 0 <= d < 1024 && 0 <= t < 1024
      ensures RightAt(m3, pd, d, t) == if pd == src
        && Before(d, t, di, ti + 1) then Forked(RightAt(m, pd, d, t)) else RightAt(m, pd, d, t)
    {
      assert RightAt(m3, pd, d, t) == RightAt(m2, pd, d, t);
      if (pd, d, t) != (src, di, ti) { assert RightAt(m2, pd, d, t) == RightAt(m0, pd, d, t); }
    }
    forall d, t | 0 <= d < 1024 && 0 <= t < 1024
      ensures RightAt(m3, dst, d, t) == if Before(d, t, di, ti + 1) then Forked(RightAt(m, src, d, t)) else NoRight
    {
      assert RightAt(m2, dst, d, t) == RightAt(m0, dst, d, t);
      if (d, t) != (di, ti) { assert RightAt(m3, dst, d, t) == RightAt(m2, dst, d, t); }
    }
  }

  lemma OutsideStep(had: Uses, u0: Uses, u2: Uses, u3: Uses, dst: nat, di: nat, ti: nat, f: nat)
    requires Outside(had, u0, dst) && TableMade(u0, u2, Tab(dst, di)) && f in u2 && u3 == Add(u2, f, Map(dst, di, ti))
    ensures Outside(had, u3, dst)
  {
    forall g, u ensures Has(had, g, u) <==> Has(u3, g, u) && u.pd != dst {
      assert Has(had, g, u) <==> Has(u0, g, u) && u.pd != dst;
      assert u.pd != dst ==> (Has(u2, g, u) <==> Has(u0, g, u));
      assert u.pd != dst ==> (Has(u3, g, u) <==> Has(u2, g, u));
    }
  }

  // ---- records of a space being given up ----

  predicate Has(uses: Uses, f: nat, u: Use) { f in uses && u in uses[f] }

  /** What is recorded is all that was, but for the uses gone. */
  ghost predicate Remaining(all: Uses, uses: Uses, gone: set<Use>) {
    forall f, u {:trigger Has(uses, f, u)} :: Has(uses, f, u) <==> Has(all, f, u) && u !in gone
  }

  lemma RemainingDrop(m: Memory, spaces: set<nat>, all: Uses, uses: Uses, gone: set<Use>, f: nat, u: Use)
    requires Recorded(m, spaces, uses, gone) && Remaining(all, uses, gone) && f in uses && u in uses[f]
    ensures Remaining(all, Drop(uses, f, u), gone + {u})
  {
    forall g, v ensures Has(Drop(uses, f, u), g, v) <==> Has(all, g, v) && v !in gone + {u} {
      assert Has(uses, g, v) <==> Has(all, g, v) && v !in gone;
      if Has(uses, g, u) { assert Frame(m, u) == g; }
    }
  }

  lemma ReleasedUse(refs: map<nat, nat>, free: seq<nat>, uses: Uses, lo: nat, hi: nat, f: nat, u: Use)
    requires f in uses && u in uses[f] && lo <= f < hi && Counted(refs, uses) && FreeList(free, uses, lo, hi)
    ensures f in refs && refs[f] >= 1
    ensures refs[f] == 1 ==> Counted(refs - {f}, Drop(uses, f, u)) && FreeList(free + [f], Drop(uses, f, u), lo, hi)
    ensures refs[f] > 1 ==>
      Counted(refs[f := refs[f] - 1], Drop(uses, f, u)) && FreeList(free, Drop(uses, f, u), lo, hi)
  {
    CountedDrop(refs, uses, f, u);
    if refs[f] == 1 { GiveFree(free, uses, lo, hi, f); } else { FreeSame(free, uses, Drop(uses, f, u), lo, hi); }
  }

  ghost predicate RowDone(m: Memory, pd: nat, di: nat, n: nat, gone: set<Use>)
    requires di < 1024 && n <= 1024
  {
    forall ti :: 0 <= ti < n && Frame(m, Map(pd, di, ti)) >= 0 ==> Map(pd, di, ti) in gone
  }

  /** Every use of the first n tables is gone. */
  ghost predicate RowsDone(m: Memory, pd: nat, n: nat, gone: set<Use>) {
    forall u :: ValidUse(u) && u.pd == pd && !u.Dir? && u.di < n && Frame(m, u) >= 0 ==> u in gone
  }

  ghost predicate Below(gone: set<Use>, n: nat) {
    forall u :: u in gone ==> !u.Dir? && u.di < n
  }

  ghost predicate OnlyRow(gone: set<Use>, before: set<Use>, di: nat, n: nat) {
    forall u :: u in gone ==> u in before || (u.Map? && u.di == di && u.ti < n)
  }

  lemma RowStep(m: Memory, pd: nat, di: nat, ti: nat, before: set<Use>, prior: set<Use>, gone: set<Use>)
    requires di < 1024 && ti < 1024 && RowDone(m, pd, di, ti, prior) && OnlyRow(prior, before, di, ti)
      && before <= prior
    requires gone == prior || gone == prior + {Map(pd, di, ti)}
    requires Frame(m, Map(pd, di, ti)) >= 0 ==> Map(pd, di, ti) in gone
    ensures RowDone(m, pd, di, ti + 1, gone) && OnlyRow(gone, before, di, ti + 1) && before <= gone
  {
  }

  lemma WholeSpace(m: Memory, pd: nat, inner: set<Use>, gone: set<Use>)
    requires gone == inner + {Dir(pd)} && RowsDone(m, pd, 1024, inner)
    ensures forall u :: ValidUse(u) && u.pd == pd && Frame(m, u) >= 0 ==> u in gone
  {
  }

  lemma RowGone(m: Memory, pd: nat, di: nat, before: set<Use>, gone: set<Use>)
    requires di < 1024 && before <= gone && Tab(pd, di) in gone && RowDone(m, pd, di, 1024, gone)
      && RowsDone(m, pd, di, before)
    ensures RowsDone(m, pd, di + 1, gone)
  {
    forall u | ValidUse(u) && u.pd == pd && !u.Dir? && u.di < di + 1 && Frame(m, u) >= 0 ensures u in gone {
      if u.di == di { if u.Map? { assert u == Map(pd, di, u.ti); } else { assert u == Tab(pd, di); } }
    }
  }

  lemma RowEmpty(m: Memory, pd: nat, di: nat)
    requires di < 1024 && Table(m, pd, di) == -1
    ensures forall u :: ValidUse(u) && u.pd == pd && !u.Dir? && u.di == di ==> Frame(m, u) == -1
  {
    forall u | ValidUse(u) && u.pd == pd && !u.Dir? && u.di == di ensures Frame(m, u) == -1 {
      if u.Map? { assert Word(m, -1, u.ti) == 0; assert FrameOf(0) == -1; }
    }
  }

  lemma AllGone(m: Memory, spaces: set<nat>, all: Uses, uses: Uses, gone: set<Use>, pd: nat, lo: nat)
    requires Recorded(m, spaces, all, {}) && Remaining(all, uses, gone) && Managed(uses, lo, |m|)
    requires forall u :: u in gone ==> u.pd == pd
    requires forall u :: ValidUse(u) && u.pd == pd && Frame(m, u) >= 0 ==> u in gone
    ensures uses == Strip(all, pd)
  {
    forall f, u ensures Has(uses, f, u) <==> Has(all, f, u) && u.pd != pd {
      if Has(all, f, u) { assert Frame(m, u) == f; }
    }
    StripIs(all, uses, pd);
  }

  lemma StripIs(all: Uses, uses: Uses, pd: nat)
    requires forall f, u :: Has(uses, f, u) <==> Has(all, f, u) && u.pd != pd
    requires forall f :: f in uses ==> uses[f] != {}
    ensures uses == Strip(all, pd)
  {
    forall f | f in all ensures f in uses <==> OfOthers(all[f], pd) != {} {
      if f in uses { var u :| u in uses[f]; assert Has(uses, f, u); assert u in OfOthers(all[f], pd); }
      if OfOthers(all[f], pd) != {} {
        var u :| u in OfOthers(all[f], pd);
        assert Has(all, f, u);
        assert Has(uses, f, u);
      }
    }
    forall f | f in uses ensures f in all && uses[f] == OfOthers(all[f], pd) {
      var u :| u in uses[f];
      assert Has(uses, f, u);
      forall v ensures v in uses[f] <==> v in OfOthers(all[f], pd) {
        assert Has(uses, f, v) <==> Has(all, f, v) && v.pd != pd;
      }
    }
    assert uses.Keys == Strip(all, pd).Keys;
  }

  lemma SoleUse(us: set<Use>, u: Use)
    requires u in us && |us| <= 1
    ensures us == {u}
  {
    assert |us - {u}| == 0;
  }

  lemma DirWord(m: Memory, m': Memory, spaces: set<nat>, uses: Uses, lo: nat, pd: nat, di: nat, g: nat)
    requires Tables(m, spaces, uses, {}, lo) && pd in spaces && di < 1024 && g !in uses && |m'| == |m|
    requires forall h :: 0 <= h < |m| && h != g ==> m'[h] == m[h]
    ensures Word(m', pd, di) == Word(m, pd, di)
  {
    assert Frame(m, Dir(pd)) == pd;
    UseRecorded(m, spaces, uses, {}, Dir(pd));
  }

  /** Counts and free list after a frame in the tables is released and a pending one enters. */
  lemma Released(refs: map<nat, nat>, free: seq<nat>, uses: Uses, lo: nat, hi: nat, f: nat, u: Use, g: nat)
    requires f in uses && u in uses[f] && g !in uses && lo <= f < hi
    requires Counted(refs, uses + map[g := {u}]) && FreeList(free, uses + map[g := {u}], lo, hi)
    ensures f in refs && refs[f] >= 1
    ensures refs[f] == 1 ==>
      Counted(refs - {f}, Drop(uses, f, u)[g := {u}]) && FreeList(free + [f], Drop(uses, f, u)[g := {u}], lo, hi)
    ensures refs[f] > 1 ==>
      Counted(refs[f := refs[f] - 1], Drop(uses, f, u)[g := {u}]) && FreeList(free, Drop(uses, f, u)[g := {u}], lo, hi)
  {
    var all := uses + map[g := {u}];
    CountedDrop(refs, all, f, u);
    assert Drop(all, f, u) == Drop(uses, f, u)[g := {u}];
    if refs[f] == 1 { GiveFree(free, all, lo, hi, f); } else { FreeSame(free, all, Drop(all, f, u), lo, hi); }
  }

  lemma CowIs(w: nat)
    ensures And(w, COW) == 0 <==> !Cow(w)
  {
    AndTestsBit(w, 9);
    Pow2At12();
  }

  /** Testing the present bit. */
  lemma PresentIs(w: nat)
    ensures And(w, P) == 0 <==> !Present(w)
  {
    AndTestsBit(w, 0);
    assert Pow2(0) == P;
  }

  lemma ChangedFree(m: Memory, m': Memory, spaces: set<nat>, uses: Uses, lo: nat, f: nat)
    requires Tables(m, spaces, uses, {}, lo) && f !in uses && |m'| == |m| && Paged(m')
    requires forall g :: 0 <= g < |m| && g != f ==> m'[g] == m[g]
    ensures Tables(m', spaces, uses, {}, lo) && AllSee(m, m', spaces)
  {
    forall u | ValidUse(u) && u.pd in spaces
      ensures Frame(m', u) == Frame(m, u) && (u.Map? ==> Pte(m', u.pd, u.di, u.ti) == Pte(m, u.pd, u.di, u.ti))
    {
      DataFrames(m, m', spaces, uses, lo, f, u);
    }
    SameFrames(m, m', spaces, uses, {}, lo);
    UnmappedChange(m, m', spaces, uses, lo, f);
  }
}
