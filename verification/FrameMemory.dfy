/** Reference-counted frames, page tables with copy-on-write, and the page cache. */
module FrameMemory {
  import opened Folding
  import opened FrameCounts
  import opened WriteBack

  ghost predicate HasPage(meta: map<int, Cached>, part: Cached) { exists j :: j in meta && SamePage(meta[j], part) }

  ghost predicate SlotFree(held: map<Holder, int>) { exists j :: 0 <= j < CACHE_SIZE && Slot(j) !in held }

  /** Some slot's frame is counted once: only the cache points at it. */
  ghost predicate SlotIdle(refs: map<int, int>, held: map<Holder, int>) {
    exists j :: 0 <= j < CACHE_SIZE && CountedOnce(refs, held, Slot(j))
  }

  predicate CountedOnce(refs: map<int, int>, held: map<Holder, int>, h: Holder) {
    h in held && held[h] in refs && refs[held[h]] == 1
  }

  class Memory {
    var refs: map<int, int>
    var free: seq<int>
    var next: int
    var held: map<Holder, int>
    var bits: map<Holder, Bits>
    var meta: map<int, Cached>
    var data: map<int, Page>
    /** What the files have, as last read or written by the cache. */
    var files: map<Part, Page>

    /** Counts are exact but for what is owed; the free list is exact; private pages and tables are pointed at once. */
    ghost predicate Ok(owed: multiset<int>)
      reads this
    {
      Exact(refs, held, owed) && FreeOk(refs, free, next) && Shaped(held, bits) && Alone(refs, held, bits)
        && CacheOk(held, meta)
    }

    ghost predicate Valid()
      reads this
    {
      Ok(multiset{})
    }

    /** At boot every frame is past next and nothing points anywhere. */
    constructor ()
      ensures Valid() && held == map[] && Left() == (POOL_END - POOL_BASE) / 4096
    {
      refs, free, next, held, bits, meta, data := map[], [], POOL_BASE, map[], map[], map[], map[];
      files := map[];
    }

    /** Valid, kept folded. */
    ghost predicate Good()
      reads this
    {
      forall z: int :: Shown(z, refs, held) ==> Valid()
    }

    ghost function Left(): int
      reads this
    {
      |free| + (POOL_END - next) / 4096
    }

    /** The part of a file is in the cache, or can be read into it. */
    ghost predicate Gettable(part: Cached, readable: bool)
      reads this
    {
      HasPage(meta, part) || (readable && if SlotFree(held) then Left() > 0 else SlotIdle(refs, held))
    }

    /** The frames left once it is there. */
    ghost function LeftAfter(part: Cached): int
      reads this
    {
      if HasPage(meta, part) || !SlotFree(held) then Left() else Left() - 1
    }

    function Contents(f: int): Page
      reads this
    {
      PageOf(data, f)
    }

    // ---- frames ----

    method AllocFrame(ghost owed: multiset<int>) returns (f: int)
      requires Ok(owed) && Left() > 0
      modifies `refs, `free, `next
      ensures Ok(owed + multiset{f}) && refs[f] == 1 && f !in owed && Left() == old(Left()) - 1
      ensures forall h :: h in held ==> held[h] != f
      ensures forall g :: g in old(refs) && g != f ==> g in refs && refs[g] == old(refs)[g]
    {
      if free != [] {
        f := free[0];
        free := free[1..];
        Unheld(refs, held, owed, f);
        ExactTaken(refs, held, owed, f);
        FreeTaken(refs, old(free), next, f);
      } else {
        f := next;
        next := next + 4096;
        NextFree(refs, f);
        ExactNew(refs, held, owed, f);
        Bumped(refs, free, f);
      }
      refs := refs[f := 1];
    }

    method RetainFrame(f: int, ghost owed: multiset<int>)
      requires Ok(owed) && f in refs && refs[f] > 0
      requires forall h :: h in held && held[h] == f ==> !h.Dir? && !h.Table? && (h in bits ==> !Private(bits[h]))
      modifies `refs
      ensures Ok(owed + multiset{f}) && refs == old(refs)[f := old(refs)[f] + 1]
    {
      ExactMore(refs, held, owed, f);
      refs := refs[f := refs[f] + 1];
    }

    method FreeFrame(f: int, ghost owed: multiset<int>)
      requires Ok(owed) && f in owed
      modifies `refs, `free
      ensures Ok(owed - multiset{f}) && f in old(refs) && refs == old(refs)[f := old(refs)[f] - 1]
      ensures free == if refs[f] == 0 then [f] + old(free) else old(free)
    {
      ExactLess(refs, held, owed, f);
      AloneLess(refs, held, bits, owed, f);
      refs := refs[f := refs[f] - 1];
      if refs[f] == 0 {
        free := [f] + free;
      }
    }

    // ---- page tables ----

    method ZeroPage(f: int)
      modifies `data
      ensures data == old(data)[f := Zero()]
    {
      data := data[f := Zero()];
    }

    method NewFrame() returns (f: int)
      requires Valid() && Left() > 0
      modifies `refs, `free, `next, `data
      ensures Ok(multiset{f}) && refs[f] == 1 && (forall h :: h in held ==> held[h] != f)
        && data == old(data)[f := Zero()] && Left() == old(Left()) - 1
    {
      f := AllocFrame(multiset{});
      assert multiset{} + multiset{f} == multiset{f};
      ZeroPage(f);
    }

    /** A directory of its own, with nothing in it. */
    method NewAddressSpace() returns (pd: int)
      requires Valid() && Left() > 0
      modifies `refs, `free, `next, `held, `bits, `data
      ensures Valid() && Dir(pd) !in old(held) && held == old(held)[Dir(pd) := pd] && bits == old(bits)
      ensures Kept(old(held), old(data), data) && Left() == old(Left()) - 1
    {
      pd := NewFrame();
      AttachDir(refs, held, bits, meta, multiset{pd}, pd);
      held := held[Dir(pd) := pd];
      assert multiset{pd} - multiset{pd} == multiset{};
    }

    method MakeTable(pd: int, di: int, ghost owed: multiset<int>)
      requires Ok(owed) && Dir(pd) in held && Table(pd, di) !in held && FIRST_TABLE <= di < 1024 && Left() > 0
      modifies `refs, `free, `next, `held, `data
      ensures Ok(owed) && Table(pd, di) in held && held == old(held)[Table(pd, di) := held[Table(pd, di)]]
      ensures var t := held[Table(pd, di)];
        t !in owed && data == old(data)[t := Zero()] && forall h :: h in old(held) ==> old(held)[h] != t
      ensures forall g :: g in owed ==> refs[g] == old(refs)[g]
      ensures Left() == old(Left()) - 1
    {
      var t := AllocFrame(owed);
      ZeroPage(t);
      AttachTable(refs, held, bits, meta, owed + multiset{t}, pd, di, t);
      held := held[Table(pd, di) := t];
      assert owed + multiset{t} - multiset{t} == owed;
    }

    /** Points an absent entry at a frame, making its table if there is none. */
    method MapPage(pd: int, page: int, f: int, b: Bits, ghost owed: multiset<int>)
      requires Ok(owed) && f in owed && Dir(pd) in held && Entry(pd, page) !in held && FIRST_TABLE <= page / 1024 < 1024
      requires (Private(b) ==> refs[f] == 1) && (Table(pd, page / 1024) !in held ==> Left() > 0)
      modifies `refs, `free, `next, `held, `bits, `data
      ensures Ok(owed - multiset{f}) && bits == old(bits)[Entry(pd, page) := b]
      ensures Entry(pd, page) in held && held[Entry(pd, page)] == f && Table(pd, page / 1024) in held
        && SameBut(old(held), held, pd, page)
      ensures Kept(old(held), old(data), data) && SameAt(old(data), data, f)
      ensures Left() == old(Left()) - if Table(pd, page / 1024) in old(held) then 0 else 1
    {
      if Table(pd, page / 1024) !in held {
        MakeTable(pd, page / 1024, owed);
      }
      SetEntry(pd, page, f, b, owed);
    }

    method SetEntry(pd: int, page: int, f: int, b: Bits, ghost owed: multiset<int>)
      requires Ok(owed) && f in owed && Table(pd, page / 1024) in held && Entry(pd, page) !in held
        && (Private(b) ==> refs[f] == 1)
      modifies `held, `bits
      ensures Ok(owed - multiset{f}) && held == old(held)[Entry(pd, page) := f]
        && bits == old(bits)[Entry(pd, page) := b]
    {
      AttachEntry(refs, held, bits, meta, owed, pd, page, f, b);
      held := held[Entry(pd, page) := f];
      bits := bits[Entry(pd, page) := b];
    }

    /** Clears an entry and gives its count back. */
    method UnmapPage(pd: int, page: int)
      requires Valid()
      modifies `refs, `free, `held, `bits
      ensures Valid() && held == old(held) - {Entry(pd, page)} && bits == old(bits) - {Entry(pd, page)}
    {
      if Entry(pd, page) !in held {
        assert held - {Entry(pd, page)} == held && bits - {Entry(pd, page)} == bits;
        return;
      }
      Drop(Entry(pd, page));
    }

    // ---- the page cache ----

    /** Writes a slot back if it must be. */
    method Flush(i: int)
      requires Valid() && i in meta
      modifies `meta, `files
      ensures Valid() && meta == old(meta)[i := old(meta)[i].(dirty := false)]
      ensures WrittenBack(held, data, old(meta), old(files), meta, files)
    {
      Flushed(held, data, meta, files, i);
      if meta[i].dirty {
        files := files[Key(meta[i]) := Head(Contents(held[Slot(i)]), meta[i].length)];
        meta := meta[i := meta[i].(dirty := false)];
      }
    }

    /** Writes back the slot that has a mapped frame, if any; that the count tells when there is none skips no
        such slot. */
    method FlushFrame(f: int, ghost h: Holder)
      requires Valid() && h in held && h.Entry? && held[h] == f
      modifies `meta, `files
      ensures Valid() && forall i :: i in meta <==> i in old(meta)
      ensures forall i :: i in meta ==>
        meta[i] == if held[Slot(i)] == f then old(meta)[i].(dirty := false) else old(meta)[i]
      ensures WrittenBack(held, data, old(meta), old(files), meta, files)
    {
      if refs[f] <= 1 {
        Uncached(refs, held, h, f);
        return;
      }
      var i := 0;
      while i < CACHE_SIZE
        invariant 0 <= i <= CACHE_SIZE && Valid() && forall j :: j in meta <==> j in old(meta)
        invariant forall j :: j in meta ==>
          meta[j] == if j < i && held[Slot(j)] == f then old(meta)[j].(dirty := false) else old(meta)[j]
        invariant WrittenBack(held, data, old(meta), old(files), meta, files)
      {
        if Slot(i) in held && held[Slot(i)] == f {
          ghost var before, had := meta, files;
          Flush(i);
          WrittenThen(held, data, old(meta), old(files), held, before, had, meta, files);
        }
        i := i + 1;
      }
    }

    /** An unused slot, made by dropping a page that only the cache points at if need be; no mapped frame is dropped. */
    method AllocSlot() returns (i: int)
      requires Valid()
      modifies `refs, `free, `held, `meta, `files
      ensures Valid() && (i == -1 || (0 <= i < CACHE_SIZE && Slot(i) !in held))
      ensures held == old(held)
        || (i != -1 && Slot(i) in old(held) && held == old(held) - {Slot(i)} && forall h :: h in held ==>
          held[h] != old(held)[Slot(i)])
      ensures if i == -1 || SlotFree(old(held)) then held == old(held) && meta == old(meta) else meta == old(meta) - {i}
      ensures i == -1 ==> forall j :: 0 <= j < CACHE_SIZE ==>
        Slot(j) in held && exists h :: h in held && h != Slot(j) && held[h] == held[Slot(j)]
      ensures i == -1 <==> !SlotFree(old(held)) && !SlotIdle(old(refs), old(held))
      ensures forall j :: 0 <= j < i ==>
        if SlotFree(old(held)) then Slot(j) in old(held) else !CountedOnce(old(refs), old(held), Slot(j))
      ensures Left() == old(Left()) + if i == -1 || SlotFree(old(held)) then 0 else 1
      ensures WrittenBack(old(held), data, old(meta), old(files), meta, files)
    {
      i := 0;
      while i < CACHE_SIZE
        invariant 0 <= i <= CACHE_SIZE && forall j :: 0 <= j < i ==> Slot(j) in held
      {
        if Slot(i) !in held {
          return;
        }
        i := i + 1;
      }
      i := 0;
      while i < CACHE_SIZE
        invariant 0 <= i <= CACHE_SIZE && forall j :: 0 <= j < i ==> !CountedOnce(refs, held, Slot(j))
      {
        if refs[held[Slot(i)]] == 1 {
          assert CountedOnce(refs, held, Slot(i));
          Flush(i);
          WrittenGone(held, data, old(meta), old(files), meta, files, i);
          Evict(i);
          return;
        }
        i := i + 1;
      }
      forall j | 0 <= j < CACHE_SIZE ensures exists h :: h in held && h != Slot(j) && held[h] == held[Slot(j)] {
        Mapped(refs, held, Slot(j));
      }
      i := -1;
    }

    method Evict(i: int)
      requires Valid() && Slot(i) in held && refs[held[Slot(i)]] == 1
      modifies `refs, `free, `held, `meta
      ensures Valid() && held == old(held) - {Slot(i)} && meta == old(meta) - {i} && Left() == old(Left()) + 1
      ensures forall h :: h in held ==> held[h] != old(held)[Slot(i)]
    {
      var f := held[Slot(i)];
      DetachSlot(refs, held, bits, meta, i);
      held := held - {Slot(i)};
      meta := meta - {i};
      assert multiset{f} - multiset{f} == multiset{};
      FreeFrame(f, multiset{f});
      Unheld(refs, held, multiset{}, f);
    }

    method Find(page: Cached) returns (i: int)
      requires Valid()
      ensures i == -1 ==> forall j :: j in meta ==> !SamePage(meta[j], page)
      ensures i != -1 ==> i in meta && SamePage(meta[i], page)
    {
      i := 0;
      while i < CACHE_SIZE
        invariant 0 <= i <= CACHE_SIZE && forall j :: j in meta && j < i ==> !SamePage(meta[j], page)
      {
        if i in meta && SamePage(meta[i], page) {
          return;
        }
        i := i + 1;
      }
      i := -1;
    }

    /** The slot of a part of a file, filled by reading it if it is not there; what processes see stays the same. */
    method CacheGet(page: Cached, readable: bool, content: Page) returns (i: int)
      requires Valid()
      modifies this
      ensures Valid() && bits == old(bits) && Unseen(old(held), old(data), held, data)
      ensures i != -1 ==> i in meta && SamePage(meta[i], page) && Left() == old(LeftAfter(page))
      ensures i != -1 <==> old(Gettable(page, readable))
      ensures HasPage(old(meta), page) ==> held == old(held) && data == old(data) && meta == old(meta)
      ensures i != -1 && !HasPage(old(meta), page) ==> held[Slot(i)] in data && data[held[Slot(i)]] == content
      ensures CacheKept(old(held), old(meta), held, meta, page)
      ensures Carries(old(held), old(data), old(meta),
                      Learned(old(files), page, content, i != -1 && !HasPage(old(meta), page)), held, data, meta, files)
    {
      CacheSame(held, meta, held, meta, page);
      i := Find(page);
      if i < 0 {
        i := CacheMiss(page, readable, content);
      }
    }

    method CacheMiss(page: Cached, readable: bool, content: Page) returns (i: int)
      requires Valid() && forall j :: j in meta ==> !SamePage(meta[j], page)
      modifies this
      ensures Valid() && bits == old(bits) && Unseen(old(held), old(data), held, data)
      ensures i != -1 ==> i in meta && SamePage(meta[i], page) && Left() == old(LeftAfter(page))
      ensures i != -1 <==> old(Gettable(page, readable))
      ensures i != -1 ==> held[Slot(i)] in data && data[held[Slot(i)]] == content
      ensures CacheKept(old(held), old(meta), held, meta, page)
      ensures Carries(old(held), old(data), old(meta), Learned(old(files), page, content, i != -1), held, data, meta,
                      files)
    {
      ghost var was, was' := held, meta;
      i := AllocSlot();
      if i < 0 || (free == [] && next >= POOL_END) {
        SlotsKept(was, data, was', old(files), held, meta, files, page, content, i);
        return -1;
      }
      i := Refill(i, page, readable, content, was, was', old(files));
    }

    /** Fills a slot that has just been found or made. */
    method Refill(i: int, page: Cached, readable: bool, content: Page, ghost was: map<Holder, int>,
                  ghost was': map<int, Cached>, ghost had: map<Part, Page>) returns (r: int)
      requires Valid() && 0 <= i < CACHE_SIZE && Slot(i) !in held && (free != [] || next < POOL_END)
      requires CacheOk(was, was') && (forall j :: j in was' ==> !SamePage(was'[j], page))
      requires (held == was || held == was - {Slot(i)}) && (meta == was' || meta == was' - {i})
      requires WrittenBack(was, data, was', had, meta, files)
      modifies this
      ensures Valid() && bits == old(bits) && Unseen(was, old(data), held, data)
      ensures if readable then r == i && i in meta && SamePage(meta[i], page) && Left() == old(Left()) - 1 else r == -1
      ensures readable ==> held[Slot(i)] in data && data[held[Slot(i)]] == content
      ensures CacheKept(was, was', held, meta, page)
      ensures Carries(was, old(data), was', Learned(had, page, content, readable), held, data, meta, files)
    {
      ghost var mid, mid' := held, meta;
      r := Fill(i, page, readable, content);
      Refilled(was, was', had, mid, old(data), mid', old(files), held, data, meta, i, page, content, readable);
    }

    method Fill(i: int, page: Cached, readable: bool, content: Page) returns (r: int)
      requires Valid() && 0 <= i < CACHE_SIZE && Slot(i) !in held && (free != [] || next < POOL_END)
        && forall j :: j in meta ==> !SamePage(meta[j], page)
      modifies this
      ensures Valid() && bits == old(bits) && AllBut(old(held), old(data), held, data, Slot(i))
      ensures if readable then r == i && i in meta && SamePage(meta[i], page) && Left() == old(Left()) - 1 else r == -1
      ensures readable ==> held[Slot(i)] in data && data[held[Slot(i)]] == content
      ensures meta == if readable then old(meta)[i := page.(dirty := false)] else old(meta)
      ensures files == Learned(old(files), page, content, readable)
    {
      SomeLeft(free, next);
      ghost var before := data;
      var f := NewFrame();
      if readable {
        AllButNow(held, before, held[Slot(i) := f], data[f := content], i, f);
        Install(i, f, page, content);
        r := i;
      } else {
        AllButNow(held, before, held, data, i, f);
        FreeFrame(f, multiset{f});
        assert multiset{f} - multiset{f} == multiset{};
        r := -1;
      }
    }

    method Install(i: int, f: int, page: Cached, content: Page)
      requires Ok(multiset{f}) && 0 <= i < CACHE_SIZE && Slot(i) !in held
        && (forall j :: j in meta ==> !SamePage(meta[j], page)) && forall h :: h in held ==> held[h] != f
      modifies `held, `meta, `data, `files
      ensures Valid() && held == old(held)[Slot(i) := f] && meta == old(meta)[i := page.(dirty := false)]
        && data == old(data)[f := content] && files == Learned(old(files), page, content, true)
    {
      data := data[f := content];
      files := files[Key(page) := Head(content, page.length)];
      AttachSlot(refs, held, bits, meta, i, f, page.(dirty := false));
      held := held[Slot(i) := f];
      meta := meta[i := page.(dirty := false)];
    }

    // ---- faults ----

    /** Gives an entry a copy of its page for itself. */
    method CopyOnWrite(pd: int, page: int)
      requires Valid() && Entry(pd, page) in held && Left() > 0
      modifies `refs, `free, `next, `held, `bits, `data
      ensures Valid() && Own(old(held), old(data), old(bits), held, data, bits, Entry(pd, page))
    {
      var f := AllocFrame(multiset{});
      assert multiset{} + multiset{f} == multiset{f};
      ghost var before := data;
      CopyPage(held[Entry(pd, page)], f);
      OwnNow(held, before, bits, data, Entry(pd, page), f);
      Switch(Entry(pd, page), f);
    }

    method CopyPage(from: int, to: int)
      requires from != to
      modifies `data
      ensures (from in data <==> to in data) && (from in data ==> data[to] == data[from])
        && forall g :: g != to ==> SameAt(old(data), data, g)
    {
      if from in data {
        data := data[to := data[from]];
      } else {
        data := data - {to};
      }
    }

    /** Points an entry at a new frame, writable, and gives the old one's count back. */
    method Switch(h: Holder, f: int)
      requires Ok(multiset{f}) && refs[f] == 1 && h in held && h.Entry? && held[h] != f
      modifies `refs, `free, `held, `bits
      ensures Valid() && held == old(held)[h := f] && bits == old(bits)[h := Bits(true, true, false, false)]
    {
      var was := held[h];
      Repoint(refs, held, bits, meta, h, f);
      held := held[h := f];
      bits := bits[h := Bits(true, true, false, false)];
      assert multiset{was} - multiset{was} == multiset{};
      FreeFrame(was, multiset{was});
    }

    method MarkDirty(f: int)
      requires Valid()
      modifies `meta
      ensures Valid() && forall i :: i in meta <==> i in old(meta)
      ensures forall i :: i in meta ==>
        meta[i] == if held[Slot(i)] == f then old(meta)[i].(dirty := true) else old(meta)[i]
    {
      var i := 0;
      while i < CACHE_SIZE
        invariant 0 <= i <= CACHE_SIZE && forall j :: j in meta <==> j in old(meta)
        invariant forall j :: j in meta ==>
          meta[j] == if j < i && held[Slot(j)] == f then old(meta)[j].(dirty := true) else old(meta)[j]
      {
        if Slot(i) in held && held[Slot(i)] == f {
          meta := meta[i := meta[i].(dirty := true)];
        }
        i := i + 1;
      }
    }

    /** A write to a shared page: its slot must be written back, and the entry lets writes through. */
    method ShareWrite(pd: int, page: int)
      requires Valid() && Entry(pd, page) in held && bits[Entry(pd, page)].shared
      modifies `meta, `bits
      ensures Valid() && bits == old(bits)[Entry(pd, page) := old(bits)[Entry(pd, page)].(writable := true)]
        && forall i :: i in meta <==> i in old(meta)
      ensures forall i :: i in meta ==>
        meta[i] == if held[Slot(i)] == held[Entry(pd, page)] then old(meta)[i].(dirty := true) else old(meta)[i]
    {
      var h := Entry(pd, page);
      MarkDirty(held[h]);
      bits := bits[h := bits[h].(writable := true)];
    }

    /** A zero page of its own for an absent entry. */
    method AnonymousFault(pd: int, page: int, canWrite: bool) returns (ok: bool)
      requires Valid() && Dir(pd) in held && Entry(pd, page) !in held && FIRST_TABLE <= page / 1024 < 1024
      requires Table(pd, page / 1024) !in held ==> Left() != 1
      modifies `refs, `free, `next, `held, `bits, `data
      ensures Valid() && Untouched(old(held), old(data), old(bits), held, data, bits, Entry(pd, page))
      ensures (ok <==> Entry(pd, page) in held) && (ok <==> old(Left()) > 0)
      ensures ok ==>
        SameAt(map[held[Entry(pd, page)] := Zero()], data, held[Entry(pd, page)])
        && bits[Entry(pd, page)] == Bits(true, canWrite, false, false) && NewTo(old(held), held[Entry(pd, page)])
      ensures !ok ==> bits == old(bits)
      ensures (forall j :: SameSlot(old(held), held, j)) && Kept(old(held), old(data), data)
    {
      if free == [] && next >= POOL_END {
        return false;
      }
      SomeLeft(free, next);
      ghost var was, before, flags := held, data, bits;
      var f := NewFrame();
      ghost var mid := data;
      MapPage(pd, page, f, Bits(true, canWrite, false, false), multiset{f});
      assert multiset{f} - multiset{f} == multiset{};
      UntouchedNow(was, before, flags, mid, held, data, bits, pd, page, f, Bits(true, canWrite, false, false));
      ok := true;
    }

    /** A page of a file for an absent entry: read-only, to be copied, or to be shared; never writable at first. */
    method FileFault(pd: int, page: int, canWrite: bool, shared: bool, own: bool, part: Cached, readable: bool,
                     content: Page) returns (ok: bool)
      requires Valid() && Dir(pd) in held && Entry(pd, page) !in held && FIRST_TABLE <= page / 1024 < 1024
      requires Table(pd, page / 1024) !in held && Gettable(part, readable) ==> LeftAfter(part) > 0
      modifies this
      ensures Valid() && Untouched(old(held), old(data), old(bits), held, data, bits, Entry(pd, page))
      ensures (ok <==> Entry(pd, page) in held) && (ok <==> old(Gettable(part, readable)))
      ensures ok ==> bits[Entry(pd, page)] == FileBits(canWrite, shared, own)
      ensures ok ==> FromCache(held, meta, part, held[Entry(pd, page)])
      ensures CacheKept(old(held), old(meta), held, meta, part) && (!ok ==> bits == old(bits))
      ensures ok && !HasPage(old(meta), part) ==> Contents(held[Entry(pd, page)]) == content
      ensures forall j :: ok && j in old(meta) && SamePage(old(meta)[j], part) ==>
        Contents(held[Entry(pd, page)]) == old(Contents(held[Slot(j)]))
      ensures Carries(old(held), old(data), old(meta),
                      Learned(old(files), part, content, ok && !HasPage(old(meta), part)), held, data, meta, files)
    {
      ghost var was, before, flags := held, data, bits;
      var i := CacheGet(part, readable, content);
      if i < 0 {
        return false;
      }
      ghost var was', mid := held, data;
      MapCached(pd, page, i, FileBits(canWrite, shared, own));
      UntouchedThen(was, before, flags, was', mid, held, data, bits, pd, page, FileBits(canWrite, shared, own));
      CacheMapped(was, old(meta), was', held, meta, part);
      CarriesOn(was, before, old(meta), Learned(old(files), part, content, !HasPage(old(meta), part)), was', mid, held,
                data, meta, files);
      ok := true;
    }

    /** Points an absent entry at the page of a cache slot. */
    method MapCached(pd: int, page: int, i: int, b: Bits)
      requires Valid() && Dir(pd) in held && Entry(pd, page) !in held && FIRST_TABLE <= page / 1024 < 1024
      requires Slot(i) in held && !b.writable && (Table(pd, page / 1024) !in held ==> Left() > 0)
      modifies `refs, `free, `next, `held, `bits, `data
      ensures Valid() && bits == old(bits)[Entry(pd, page) := b]
      ensures Entry(pd, page) in held && Slot(i) in held && held[Entry(pd, page)] == old(held)[Slot(i)] == held[Slot(i)]
      ensures SameBut(old(held), held, pd, page) && Kept(old(held), old(data), data)
        && SameAt(old(data), data, old(held)[Slot(i)])
      ensures forall j :: SameSlot(old(held), held, j)
    {
      var f := held[Slot(i)];
      Shareable(refs, held, bits, i);
      RetainFrame(f, multiset{});
      assert multiset{} + multiset{f} == multiset{f} && multiset{f} - multiset{f} == multiset{};
      MapPage(pd, page, f, b, multiset{f});
    }

    /** Whether a fault is resolved: a present page only for a write, by copying or by sharing; an absent one as
        its area, or the break, permits. */
    ghost predicate Resolves(pd: int, page: int, write: bool, area: Mapping, inBreak: bool, part: Cached,
                             readable: bool)
      reads this
    {
      FIRST_PAGE <= page < END_PAGE &&
      if Entry(pd, page) in held then Rewrites(Entry(pd, page), write, area)
      else Permits(area, inBreak, write) && if Anon(area) then Left() > 0 else Gettable(part, readable)
    }

    ghost predicate Rewrites(h: Holder, write: bool, area: Mapping)
      reads this
    {
      write && Writes(area) && h in bits && if bits[h].cow then Left() > 0 else bits[h].shared
    }

    /** A fault that is resolved reads the part of the file its page shows. */
    ghost predicate Fetches(pd: int, page: int, area: Mapping, part: Cached)
      reads this
    {
      Entry(pd, page) !in held && !Anon(area) && !HasPage(meta, part)
    }

    /** What an absent page shows first: zeros, what the cache has of its file, or what is read from it. */
    ghost function FirstPage(area: Mapping, part: Cached, content: Page): Page
      reads this
    {
      if Anon(area) then Zero()
      else if HasPage(meta, part) then
        var j :| j in meta && SamePage(meta[j], part); if Slot(j) in held then Contents(held[Slot(j)]) else []
      else content
    }

    /** A frame is left for the page table if one must be made; the kernel stops otherwise. */
    ghost predicate TableFits(pd: int, page: int, area: Mapping, part: Cached)
      reads this
    {
      Table(pd, page / 1024) in held || if Anon(area) then Left() > 1 else LeftAfter(part) > 0
    }

    /** Handles a fault. Every other entry shows what it did. A present page keeps its contents, in a frame of
        its own if it was to be copied; an absent one becomes a zero page or a page of its file. */
    method HandleFault(pd: int, page: int, write: bool, area: Mapping, inBreak: bool, part: Cached, readable: bool,
                       content: Page) returns (ok: bool)
      requires Valid() && Dir(pd) in held
      requires Entry(pd, page) !in held && Resolves(pd, page, write, area, inBreak, part, readable) ==>
        TableFits(pd, page, area, part)
      modifies this
      ensures Valid() && Untouched(old(held), old(data), old(bits), held, data, bits, Entry(pd, page))
      ensures ok <==> old(Resolves(pd, page, write, area, inBreak, part, readable))
      ensures Entry(pd, page) in old(held) ==>
        && Entry(pd, page) in held && Contents(held[Entry(pd, page)]) == old(Contents(held[Entry(pd, page)]))
        && (ok ==> bits[Entry(pd, page)].writable)
      ensures Entry(pd, page) in old(held) && ok ==>
        Refaulted(old(held), old(data), old(bits), old(meta), held, data, bits, meta, Entry(pd, page))
      ensures Entry(pd, page) in old(held) && !ok ==> held == old(held) && data == old(data) && meta == old(meta)
      ensures !ok ==> bits == old(bits)
      ensures Entry(pd, page) !in old(held) && ok ==>
        Entry(pd, page) in held && bits[Entry(pd, page)] == FirstBits(area)
      ensures Entry(pd, page) !in old(held) && ok ==>
        if Anon(area) then meta == old(meta) && NewTo(old(held), held[Entry(pd, page)])
        else FromCache(held, meta, part, held[Entry(pd, page)])
      ensures Entry(pd, page) !in old(held) ==> CacheKept(old(held), old(meta), held, meta, part)
      ensures Entry(pd, page) !in old(held) && ok ==>
        Contents(held[Entry(pd, page)]) == old(FirstPage(area, part, content))
      ensures Carries(old(held), old(data), old(meta),
                      Learned(old(files), part, content, ok && old(Fetches(pd, page, area, part))), held, data, meta,
                      files)
    {
      CacheSame(held, meta, held, meta, part);
      CarriesSame(held, data, meta, files, held, data);
      if page < FIRST_PAGE || page >= END_PAGE {
        return false;
      }
      if Entry(pd, page) in held {
        ok := PresentFault(pd, page, write, area);
        if ok {
          CarriesRefault(old(held), old(data), old(bits), old(meta), files, held, data, bits, meta, Entry(pd, page));
        }
      } else if !Permits(area, inBreak, write) {
        ok := false;
      } else {
        ok := AbsentFault(pd, page, area, part, readable, content);
      }
    }

    method AbsentFault(pd: int, page: int, area: Mapping, part: Cached, readable: bool, content: Page)
      returns (ok: bool)
      requires Valid() && Dir(pd) in held && Entry(pd, page) !in held && FIRST_TABLE <= page / 1024 < 1024
      requires (if Anon(area) then Left() > 0 else Gettable(part, readable)) ==> TableFits(pd, page, area, part)
      modifies this
      ensures Valid() && Untouched(old(held), old(data), old(bits), held, data, bits, Entry(pd, page))
      ensures ok <==> if Anon(area) then old(Left()) > 0 else old(Gettable(part, readable))
      ensures ok <==> Entry(pd, page) in held
      ensures !ok ==> bits == old(bits)
      ensures ok ==> bits[Entry(pd, page)] == FirstBits(area)
      ensures ok ==>
        if Anon(area) then meta == old(meta) && NewTo(old(held), held[Entry(pd, page)])
        else FromCache(held, meta, part, held[Entry(pd, page)])
      ensures CacheKept(old(held), old(meta), held, meta, part)
      ensures ok ==> Contents(held[Entry(pd, page)]) == old(FirstPage(area, part, content))
      ensures Carries(old(held), old(data), old(meta),
                      Learned(old(files), part, content, ok && old(Fetches(pd, page, area, part))), held, data, meta,
                      files)
    {
      if area.Unmapped? || area.anonymous {
        ok := AnonymousFault(pd, page, area.Unmapped? || area.canWrite);
        CacheSame(old(held), old(meta), held, meta, part);
        CarriesSame(old(held), old(data), meta, files, held, data);
      } else {
        ok := FileFault(pd, page, area.canWrite, area.shared, area.own, part, readable, content);
      }
    }

    method PresentFault(pd: int, page: int, write: bool, area: Mapping) returns (ok: bool)
      requires Valid() && Entry(pd, page) in held
      modifies `refs, `free, `next, `held, `bits, `meta, `data
      ensures Valid() && Untouched(old(held), old(data), old(bits), held, data, bits, Entry(pd, page))
      ensures Entry(pd, page) in held && Contents(held[Entry(pd, page)]) == old(Contents(held[Entry(pd, page)]))
      ensures (ok <==> old(Rewrites(Entry(pd, page), write, area))) && (ok ==> bits[Entry(pd, page)].writable)
      ensures ok ==> Refaulted(old(held), old(data), old(bits), old(meta), held, data, bits, meta, Entry(pd, page))
      ensures !ok ==> held == old(held) && data == old(data) && bits == old(bits) && meta == old(meta)
      ensures !ok ==> refs == old(refs) && free == old(free) && next == old(next)
    {
      if !write {
        return false;
      }
      if area.Mapping? && !area.canWrite {
        return false;
      }
      if bits[Entry(pd, page)].cow {
        if free == [] && next >= POOL_END {
          return false;
        }
        SomeLeft(free, next);
        CopyOnWrite(pd, page);
        return true;
      }
      if bits[Entry(pd, page)].shared {
        ShareWrite(pd, page);
        return true;
      }
      ok := false;
    }

    /** A store through a writable entry; unless the page is shared no other entry and no cache slot shows it. */
    method UserWrite(pd: int, page: int, at: nat, v: int)
      requires Valid() && Entry(pd, page) in held && bits[Entry(pd, page)].writable
        && at < |Contents(held[Entry(pd, page)])|
      modifies `data
      ensures Valid() && Contents(held[Entry(pd, page)]) == old(Contents(held[Entry(pd, page)]))[at := v]
      ensures forall h :: h in held && h != Entry(pd, page) ==>
        SameAt(old(data), data, held[h]) || (bits[Entry(pd, page)].shared && held[h] == held[Entry(pd, page)])
    {
      var f := held[Entry(pd, page)];
      if !bits[Entry(pd, page)].shared {
        forall h | h in held && held[h] == f ensures h == Entry(pd, page) {
          OnlyPointer(refs, held, bits, Entry(pd, page), h);
        }
      }
      data := data[f := data[f][at := v]];
    }

    /** The part of a protection change that is in the page table: writable only where the frame is counted once. */
    method ProtectPage(pd: int, page: int, none: bool, canWrite: bool, sharedFile: bool)
      requires Valid()
      modifies `bits
      ensures Valid() && (Entry(pd, page) !in held ==> bits == old(bits))
      ensures Entry(pd, page) in held ==>
        Entry(pd, page) in bits && bits == old(bits)[Entry(pd, page) := bits[Entry(pd, page)]]
      ensures var h := Entry(pd, page);
        h in held ==> bits[h].user == !none && Reprotected(old(bits)[h], bits[h], canWrite, sharedFile, refs[held[h]])
    {
      var h := Entry(pd, page);
      if h !in held {
        return;
      }
      var b := Bits(!none, false, bits[h].cow, bits[h].shared);
      if canWrite {
        if sharedFile {
          b := b.(cow := false, shared := true);
        } else if b.cow || refs[held[h]] > 1 {
          b := b.(shared := false, cow := true);
        } else {
          OnceCounted(refs, held, h);
          b := b.(cow := false, shared := false, writable := true);
        }
      }
      bits := bits[h := b];
    }

    // ---- whole spaces ----

    method Downgrade(h: Holder)
      requires Valid() && h in held && h.Entry?
      modifies `bits
      ensures Valid() && bits == old(bits)[h := Down(old(bits)[h])]
    {
      bits := bits[h := Down(bits[h])];
    }

    /** Shares one page with the child, both to copy it before writing. */
    method CopyEntry(src: int, dst: int, page: int)
      requires Valid() && Entry(src, page) in held && Dir(dst) in held && src != dst && Entry(dst, page) !in held
      requires Table(dst, page / 1024) !in held ==> Left() > 0
      modifies `refs, `free, `next, `held, `bits, `data
      ensures Valid() && Kept(old(held), old(data), data) && SameBut(old(held), held, dst, page)
      ensures Entry(dst, page) in held && held[Entry(dst, page)] == held[Entry(src, page)]
        && Table(dst, page / 1024) in held
      ensures bits == old(bits)[Entry(src, page) := Down(old(bits)[Entry(src, page)])][Entry(dst,
          page) := Down(old(bits)[Entry(src, page)])]
      ensures Left() == old(Left()) - if Table(dst, page / 1024) in old(held) then 0 else 1
    {
      Downgrade(Entry(src, page));
      MapShared(dst, page, Entry(src, page));
    }

    /** Points an absent entry at the frame of another, with its flags. */
    method MapShared(dst: int, page: int, h: Holder)
      requires Valid() && h in held && h.Entry? && h.page == page && !Private(bits[h]) && Dir(dst) in held
        && Entry(dst, page) !in held
      requires Table(dst, page / 1024) !in held ==> Left() > 0
      modifies `refs, `free, `next, `held, `bits, `data
      ensures Valid() && Kept(old(held), old(data), data) && SameBut(old(held), held, dst, page)
      ensures Entry(dst, page) in held && held[Entry(dst, page)] == old(held)[h] && Table(dst, page / 1024) in held
        && bits == old(bits)[Entry(dst, page) := old(bits)[h]]
      ensures Left() == old(Left()) - if Table(dst, page / 1024) in old(held) then 0 else 1
    {
      var f := held[h];
      assert Table(h.pd, page / 1024) in held;
      Retainable(refs, held, bits, h);
      RetainFrame(f, multiset{});
      assert multiset{} + multiset{f} == multiset{f} && multiset{f} - multiset{f} == multiset{};
      MapPage(dst, page, f, bits[h], multiset{f});
    }

    /** Pages below p are shared and all is valid, kept folded. */
    ghost predicate Going(held0: map<Holder, int>, data0: map<int, Page>, bits0: map<Holder, Bits>, src: int, dst: int,
                          p: int)
      reads this
    {
      forall z: int :: Shown(z, bits, p) ==> Good() && CopiedSoFar(held0, data0, bits0, held, data, bits, src, dst, p)
    }

    method CopyPageTo(src: int, dst: int, page: int, ghost held0: map<Holder, int>, ghost data0: map<int, Page>,
                      ghost bits0: map<Holder, Bits>)
      requires src != dst && Dir(dst) in held && (Table(dst, page / 1024) !in held ==> Left() > 0)
      requires Going(held0, data0, bits0, src, dst, page)
      modifies `refs, `free, `next, `held, `bits, `data
      ensures Dir(dst) in held && Going(held0, data0, bits0, src, dst, page + 1)
      ensures forall k :: if k == page / 1024 then Table(dst, k) in old(held) ==>
        Table(dst, k) in held else Table(dst, k) in held <==> Table(dst, k) in old(held)
      ensures Left() == old(Left()) - if Table(dst, page / 1024) in held
        && Table(dst, page / 1024) !in old(held) then 1 else 0
    {
      assert Shown(0, bits, page);
      if Entry(src, page) in held {
        CopyPresent(src, dst, page, held0, data0, bits0);
      } else {
        assert Shown(0, held, bits);
        CopiedSkip(held0, data0, bits0, held, data, bits, src, dst, page);
      }
    }

    method CopyPresent(src: int, dst: int, page: int, ghost held0: map<Holder, int>, ghost data0: map<int, Page>,
                       ghost bits0: map<Holder, Bits>)
      requires Good() && src != dst && Dir(dst) in held && (Table(dst, page / 1024) !in held ==> Left() > 0)
        && Entry(src, page) in held
      requires CopiedSoFar(held0, data0, bits0, held, data, bits, src, dst, page)
      modifies `refs, `free, `next, `held, `bits, `data
      ensures Good() && Dir(dst) in held && CopiedSoFar(held0, data0, bits0, held, data, bits, src, dst, page + 1)
      ensures forall k :: if k == page / 1024 then Table(dst, k) in old(held) ==>
        Table(dst, k) in held else Table(dst, k) in held <==> Table(dst, k) in old(held)
      ensures Left() == old(Left()) - if Table(dst, page / 1024) in held
        && Table(dst, page / 1024) !in old(held) then 1 else 0
    {
      assert Shown(0, refs, held);
      assert forall h :: h in bits <==> h in held && h.Entry?;
      ghost var was, before, flags := held, data, bits;
      NotYet(held0, data0, bits0, held, data, bits, src, dst, page);
      CopyEntry(src, dst, page);
      CopiedNext(held0, data0, bits0, was, before, flags, held, data, bits, src, dst, page);
    }

    method CopyTable(src: int, dst: int, di: int, ghost held0: map<Holder, int>, ghost data0: map<int, Page>,
                     ghost bits0: map<Holder, Bits>)
      requires FIRST_TABLE <= di < 1024 && src != dst && Dir(dst) in held && Table(dst, di) !in held && Left() > 0
      requires Going(held0, data0, bits0, src, dst, 1024 * di)
      modifies `refs, `free, `next, `held, `bits, `data
      ensures Dir(dst) in held && Going(held0, data0, bits0, src, dst, 1024 * (di + 1)) && Left() >= old(Left()) - 1
      ensures forall k :: k != di ==> (Table(dst, k) in held <==> Table(dst, k) in old(held))
    {
      var page, end := 1024 * di, 1024 * (di + 1);
      while page < end
        invariant 1024 * di <= page <= end && Dir(dst) in held && Going(held0, data0, bits0, src, dst, page)
        invariant Left() >= old(Left()) - 1 && (Table(dst, di) !in held ==> Left() == old(Left()))
        invariant forall k :: k != di ==> (Table(dst, k) in held <==> Table(dst, k) in old(held))
      {
        TableOf(page, di);
        CopyPageTo(src, dst, page, held0, data0, bits0);
        page := page + 1;
      }
    }

    /** Fork: the child's pages are the parent's, page by page; writable ones are to be copied in both, and
        nothing else changes. */
    method CopySpace(src: int, dst: int)
      requires Valid() && Dir(src) in held && Dir(dst) in held && src != dst && NoTables(held, dst)
        && Left() >= TablesFrom(held, src, FIRST_TABLE)
      modifies `refs, `free, `next, `held, `bits, `data
      ensures Valid()
        && Copied(old(held), old(data), old(bits), held, data, bits, src, dst, 1024 * 1024)
    {
      CopiedStart(held, data, bits, src, dst);
      CopyTables(src, dst);
      assert Shown(0, refs, held);
      assert Shown(0, held, bits);
    }

    /** After a fork, parent or child writes to a page that was private: its write is resolved unless no frame is
        left, it sees the byte, and no one else does, no other process and no file. */
    method ForkThenStore(src: int, dst: int, who: int, page: int, area: Mapping, at: nat, v: int) returns (ok: bool)
      requires Valid() && Dir(src) in held && Dir(dst) in held && src != dst && NoTables(held, dst)
        && Left() >= TablesFrom(held, src, FIRST_TABLE)
      requires Entry(src, page) in held && !bits[Entry(src, page)].shared && Writes(area) && (who == src || who == dst)
      requires bits[Entry(src, page)].writable || bits[Entry(src, page)].cow
      requires FIRST_PAGE <= page < END_PAGE && at < |Contents(held[Entry(src, page)])|
      modifies `refs, `free, `next, `held, `bits, `meta, `data
      ensures Valid() && Entry(who, page) in held
      ensures ok ==> Contents(held[Entry(who, page)]) == old(Contents(held[Entry(src, page)]))[at := v]
      ensures forall h :: h in old(held) && (h != Entry(who, page) || !ok) ==>
        h in held && Contents(held[h]) == old(Contents(held[h]))
      ensures forall q :: Entry(dst, q) in held && (Entry(dst, q) != Entry(who, page) || !ok) ==>
        Entry(src, q) in old(held) && Contents(held[Entry(dst, q)]) == old(Contents(held[Entry(src, q)]))
      ensures !ok ==> Left() <= 0
    {
      ghost var held0, data0, bits0 := held, data, bits;
      CopySpace(src, dst);
      ForkKept(held0, data0, bits0, held, data, bits, src, dst);
      ForkSees(held0, data0, bits0, held, data, bits, src, dst, page);
      ok := StoreCopied(who, page, area, at, v);
    }

    /** A write to a page marked for copying, resolved and retried. */
    method StoreCopied(pd: int, page: int, area: Mapping, at: nat, v: int) returns (ok: bool)
      requires Valid() && Entry(pd, page) in held && bits[Entry(pd, page)].cow && Writes(area)
        && at < |Contents(held[Entry(pd, page)])|
      modifies `refs, `free, `next, `held, `bits, `meta, `data
      ensures Valid() && held.Keys == old(held).Keys && (ok <==> old(Left()) > 0) && (!ok ==> Left() == old(Left()))
      ensures ok ==> Contents(held[Entry(pd, page)]) == old(Contents(held[Entry(pd, page)]))[at := v]
      ensures forall h :: h in held && (h != Entry(pd, page) || !ok) ==> Contents(held[h]) == old(Contents(held[h]))
    {
      ok := PresentFault(pd, page, true, area);
      if ok {
        UserWrite(pd, page, at, v);
      }
    }

    method CopyTableAt(src: int, dst: int, di: int, ghost held0: map<Holder, int>, ghost data0: map<int, Page>,
                       ghost bits0: map<Holder, Bits>)
      requires FIRST_TABLE <= di < 1024 && src != dst && Dir(dst) in held
        && (forall k :: di <= k ==> Table(dst, k) !in held)
      requires Going(held0, data0, bits0, src, dst, 1024 * di) && Left() >= TablesFrom(held0, src, di)
      modifies `refs, `free, `next, `held, `bits, `data
      ensures Dir(dst) in held && Going(held0, data0, bits0, src, dst, 1024 * (di + 1))
      ensures Left() >= TablesFrom(held0, src, di + 1) && forall k :: di + 1 <= k ==> Table(dst, k) !in held
    {
      assert Shown(0, bits, 1024 * di);
      SameTable(held0, data0, bits0, held, data, bits, src, dst, di);
      if Table(src, di) in held {
        CopyTable(src, dst, di, held0, data0, bits0);
      } else {
        CopiedOver(held0, data0, bits0, held, data, bits, src, dst, di);
      }
    }

    method CopyTables(src: int, dst: int)
      requires Good() && Dir(src) in held && Dir(dst) in held && src != dst
        && Left() >= TablesFrom(held, src, FIRST_TABLE) && NoTables(held, dst)
      requires CopiedSoFar(held, data, bits, held, data, bits, src, dst, 1024 * FIRST_TABLE)
      modifies `refs, `free, `next, `held, `bits, `data
      ensures Good()
        && CopiedSoFar(old(held), old(data), old(bits), held, data, bits, src, dst, 1024 * 1024)
    {
      var di := FIRST_TABLE;
      while di < 1024
        invariant FIRST_TABLE <= di <= 1024 && Dir(dst) in held
          && Going(old(held), old(data), old(bits), src, dst, 1024 * di)
        invariant Left() >= TablesFrom(old(held), src, di) && forall k :: di <= k ==> Table(dst, k) !in held
      {
        CopyTableAt(src, dst, di, old(held), old(data), old(bits));
        di := di + 1;
      }
      assert Shown(0, bits, 1024 * 1024);
    }

    method FreeEntry(pd: int, page: int, ghost held0: map<Holder, int>, ghost meta0: map<int, Cached>,
                     ghost files0: map<Part, Page>)
      requires Good() && Entry(pd, page) in held && Clearing(held0, held, data, meta0, meta, files0, files, pd)
      modifies `refs, `free, `held, `bits, `meta, `files
      ensures Good() && held == old(held) - {Entry(pd, page)} && bits == old(bits) - {Entry(pd, page)}
      ensures Clearing(held0, held, data, meta0, meta, files0, files, pd)
    {
      assert Shown(0, refs, held);
      ghost var was, before, had := held, meta, files;
      FlushFrame(held[Entry(pd, page)], Entry(pd, page));
      ClearingMore(held0, was, data, meta0, before, files0, had, meta, files, pd, page);
      Drop(Entry(pd, page));
    }

    method FreeTable(pd: int, di: int, ghost held0: map<Holder, int>, ghost meta0: map<int, Cached>,
                     ghost files0: map<Part, Page>)
      requires Good() && Table(pd, di) in held && Clearing(held0, held, data, meta0, meta, files0, files, pd)
      modifies `refs, `free, `held, `bits, `meta, `files
      ensures Good() && Gone(old(held), old(bits), held, bits, pd, di) && Table(pd, di) !in held
      ensures Clearing(held0, held, data, meta0, meta, files0, files, pd)
    {
      var ti := 0;
      while ti < 1024
        invariant 0 <= ti <= 1024 && Good() && Table(pd, di) in held && Gone(old(held), old(bits), held, bits, pd, di)
        invariant Clearing(held0, held, data, meta0, meta, files0, files, pd)
        invariant forall page :: Entry(pd, page) in held && page / 1024 == di ==> page >= 1024 * di + ti
      {
        var page := 1024 * di + ti;
        if Entry(pd, page) in held {
          TableOf(page, di);
          FreeEntry(pd, page, held0, meta0, files0);
        }
        ti := ti + 1;
      }
      forall page | Entry(pd, page) in held ensures page / 1024 != di { TableOf(page, di); }
      assert Shown(0, refs, held);
      ClearingDrop(held0, held, data, meta0, meta, files0, files, pd, Table(pd, di));
      Drop(Table(pd, di));
    }

    /** Exit: every pointer of the space is gone and its counts with it; every other space and the cache stay, and
        the slots of pages that the space had are written back. */
    method FreeSpace(pd: int)
      requires Valid() && Dir(pd) in held
      modifies `refs, `free, `held, `bits, `meta, `files
      ensures Valid() && held == Without(old(held), pd)
        && forall h :: h in bits ==> h in old(bits) && bits[h] == old(bits)[h]
      ensures (forall i :: i in meta <==> i in old(meta)) && forall i :: i in meta ==>
        meta[i] == if HasFrame(old(held), pd, i) then old(meta)[i].(dirty := false) else old(meta)[i]
      ensures WrittenBack(old(held), data, old(meta), old(files), meta, files)
    {
      FreeTables(pd);
      assert Shown(0, refs, held);
      assert Shown(0, held, meta);
      CleanedAll(old(held), held, bits, old(meta), meta, pd);
      Drop(Dir(pd));
      AllGone(old(held), held, bits, pd);
    }

    method FreeTables(pd: int)
      requires Valid() && Dir(pd) in held
      modifies `refs, `free, `held, `bits, `meta, `files
      ensures Good() && Dir(pd) in held && NoTables(held, pd)
      ensures forall h: Holder :: h in held ==> h in old(held) && held[h] == old(held)[h]
      ensures forall h: Holder :: h in old(held) && !Belongs(h, pd) ==> h in held
      ensures forall h :: h in bits ==> h in old(bits) && bits[h] == old(bits)[h]
      ensures Clearing(old(held), held, data, old(meta), meta, old(files), files, pd)
    {
      var di := FIRST_TABLE;
      while di < 1024
        invariant FIRST_TABLE <= di <= 1024 && Good() && Dir(pd) in held
        invariant forall h: Holder :: h in held ==> h in old(held) && held[h] == old(held)[h]
        invariant forall h: Holder :: h in old(held) && !Belongs(h, pd) ==> h in held
        invariant forall h :: h in bits ==> h in old(bits) && bits[h] == old(bits)[h]
        invariant forall k :: Table(pd, k) in held ==> k >= di
        invariant Clearing(old(held), held, data, old(meta), meta, old(files), files, pd)
      {
        if Table(pd, di) in held {
          FreeTable(pd, di, old(held), old(meta), old(files));
        }
        di := di + 1;
      }
      assert Shown(0, refs, held);
    }

    /** A store to a shared page of a file, and then exit: the file has the byte if and only if the slot was to be
        written back already. The store itself does not see to that. */
    method StoreThenExit(pd: int, page: int, at: nat, v: int, ghost i: int)
      requires Valid() && Dir(pd) in held && Entry(pd, page) in held
        && bits[Entry(pd, page)].writable && bits[Entry(pd, page)].shared
      requires i in meta && held[Slot(i)] == held[Entry(pd, page)]
        && (!meta[i].dirty ==> FileHas(files, Key(meta[i]), Image(held, data, meta, i)))
      requires at < meta[i].length <= |Contents(held[Slot(i)])| && Contents(held[Slot(i)])[at] != v
      modifies `refs, `free, `held, `bits, `meta, `data, `files
      ensures Valid() && i in meta && meta[i] == old(meta)[i].(dirty := false)
      ensures Image(held, data, meta, i) == old(Image(held, data, meta, i))[at := v]
      ensures FileHas(files, Key(meta[i]), Image(held, data, meta, i)) <==> old(meta)[i].dirty
      ensures !old(meta)[i].dirty ==> SameFile(old(files), files, Key(meta[i]))
    {
      UserWrite(pd, page, at, v);
      ghost var was, before, had := held, meta, files;
      FreeSpace(pd);
      assert PointsAt(was, pd, page, i);
      if !before[i].dirty {
        NotSaved(was, before, meta, i);
        assert SameFile(had, files, Key(before[i]));
        assert old(Image(held, data, meta, i))[at] != v;
      } else {
        assert Relieved(before, meta, i);
      }
    }

    /** Process b writes to a shared page that process a has too; a exits, which writes the page back, and b stores
        once more and exits: its store is in the cache and not in the file, and nothing is left to be written back. */
    method StoreLost(a: int, b: int, page: int, page': int, area: Mapping, at: nat, v: int, ghost i: int)
      requires Valid() && a != b && Dir(a) in held && Dir(b) in held && Entry(a, page) in held
        && Entry(b, page') in held
      requires Writes(area) && bits[Entry(b, page')].shared && !bits[Entry(b, page')].cow
      requires i in meta && held[Slot(i)] == held[Entry(a, page)] == held[Entry(b, page')]
      requires at < meta[i].length <= |Contents(held[Slot(i)])| && Contents(held[Slot(i)])[at] != v
      modifies this
      ensures Valid() && i in meta && !meta[i].dirty && Key(meta[i]) == old(Key(meta[i]))
      ensures Image(held, data, meta, i) == old(Image(held, data, meta, i))[at := v]
      ensures FileHas(files, Key(meta[i]), old(Image(held, data, meta, i)))
    {
      var _ := PresentFault(b, page', true, area);
      ghost var was, before := held, meta;
      FreeSpace(a);
      assert PointsAt(was, a, page, i) && Relieved(before, meta, i);
      StoreThenExit(b, page', at, v, i);
    }

    /** Takes a pointer that nothing depends on away, and its count with it. */
    method Drop(h: Holder)
      requires Valid() && h in held
        && (h.Entry? || (h.Table? && NoEntries(held, h.pd, h.di)) || (h.Dir? && NoTables(held, h.pd)))
      modifies `refs, `free, `held, `bits
      ensures Valid() && held == old(held) - {h} && bits == old(bits) - {h}
    {
      var f := held[h];
      Detach(refs, held, bits, meta, multiset{}, h);
      assert multiset{} + multiset{f} == multiset{f} && multiset{f} - multiset{f} == multiset{};
      held := held - {h};
      bits := bits - {h};
      FreeFrame(f, multiset{f});
    }
  }

  function Zero(): (z: Page)
    ensures |z| == 4096 && forall i :: 0 <= i < 4096 ==> z[i] == 0
  {
    seq(4096, _ => 0)
  }

  predicate SameAt(data: map<int, Page>, data': map<int, Page>, f: int) {
    (f in data <==> f in data') && (f in data ==> data'[f] == data[f])
  }

  /** Frames that are pointed at keep their contents. */
  ghost predicate Kept(held: map<Holder, int>, data: map<int, Page>, data': map<int, Page>) {
    forall h :: h in held ==> SameAt(data, data', held[h])
  }

  /** Nothing but that entry, and perhaps the table over it, is new. */
  ghost predicate SameBut(held: map<Holder, int>, held': map<Holder, int>, pd: int, page: int) {
    && (forall h :: h in held ==> h in held' && held'[h] == held[h])
    && (forall h :: h in held' && h !in held ==> h == Entry(pd, page) || h == Table(pd, page / 1024))
  }

  ghost predicate NoEntries(held: map<Holder, int>, pd: int, di: int) {
    forall page :: Entry(pd, page) in held ==> page / 1024 != di
  }

  ghost predicate NoTables(held: map<Holder, int>, pd: int) { forall di :: Table(pd, di) !in held }

  lemma AttachDir(refs: map<int, int>, held: map<Holder, int>, bits: map<Holder, Bits>, meta: map<int, Cached>,
                  owed: multiset<int>, pd: int)
    requires Exact(refs, held, owed) && Shaped(held, bits) && Alone(refs, held, bits) && CacheOk(held, meta)
      && pd in owed && refs[pd] == 1
    requires forall h :: h in held ==> held[h] != pd
    ensures Dir(pd) !in held
    ensures var held' := held[Dir(pd) := pd];
      Exact(refs, held', owed - multiset{pd}) && Shaped(held', bits) && Alone(refs, held', bits) && CacheOk(held', meta)
  {
    ExactAttach(refs, held, owed, Dir(pd), pd);
  }

  lemma AttachTable(refs: map<int, int>, held: map<Holder, int>, bits: map<Holder, Bits>, meta: map<int, Cached>,
                    owed: multiset<int>, pd: int, di: int, t: int)
    requires Exact(refs, held, owed) && Shaped(held, bits) && Alone(refs, held, bits) && CacheOk(held, meta)
      && t in owed && refs[t] == 1
    requires Dir(pd) in held && Table(pd, di) !in held && FIRST_TABLE <= di < 1024
    ensures var held' := held[Table(pd, di) := t];
      Exact(refs, held', owed - multiset{t}) && Shaped(held', bits) && Alone(refs, held', bits) && CacheOk(held', meta)
  {
    ExactAttach(refs, held, owed, Table(pd, di), t);
  }

  lemma AttachEntry(refs: map<int, int>, held: map<Holder, int>, bits: map<Holder, Bits>, meta: map<int, Cached>,
                    owed: multiset<int>, pd: int, page: int, f: int, b: Bits)
    requires Exact(refs, held, owed) && Shaped(held, bits) && Alone(refs, held, bits) && CacheOk(held, meta)
      && f in owed && (Private(b) ==> refs[f] == 1)
    requires Table(pd, page / 1024) in held && Entry(pd, page) !in held
    ensures var h := Entry(pd, page); var held', bits' := held[h := f], bits[h := b];
      Exact(refs, held', owed - multiset{f}) && Shaped(held', bits') && Alone(refs, held', bits')
        && CacheOk(held', meta)
  {
    ExactAttach(refs, held, owed, Entry(pd, page), f);
  }

  lemma Detach(refs: map<int, int>, held: map<Holder, int>, bits: map<Holder, Bits>, meta: map<int, Cached>,
               owed: multiset<int>, h: Holder)
    requires Exact(refs, held, owed) && Shaped(held, bits) && Alone(refs, held, bits) && CacheOk(held, meta)
      && h in held
    requires h.Entry? || (h.Table? && NoEntries(held, h.pd, h.di)) || (h.Dir? && NoTables(held, h.pd))
    ensures var held', bits' := held - {h}, bits - {h};
      Exact(refs, held', owed + multiset{held[h]}) && Shaped(held', bits') && Alone(refs, held', bits')
        && CacheOk(held', meta)
  {
    ExactDetach(refs, held, owed, h);
  }

  /** A frame on the free list is pointed at by nothing. */
  lemma Unheld(refs: map<int, int>, held: map<Holder, int>, owed: multiset<int>, f: int)
    requires Exact(refs, held, owed) && f in refs && refs[f] == 0
    ensures f !in owed && forall h :: h in held ==> held[h] != f
  {
    assert refs[f] == Count(held, f) + owed[f];
    NotHeld(held, f);
  }

  lemma ExactTaken(refs: map<int, int>, held: map<Holder, int>, owed: multiset<int>, f: int)
    requires Exact(refs, held, owed) && f in refs && refs[f] == 0
    ensures Exact(refs[f := 1], held, owed + multiset{f})
  {
    ExactMore(refs, held, owed, f);
  }

  lemma FreeTaken(refs: map<int, int>, free: seq<int>, next: int, f: int)
    requires FreeOk(refs, free, next) && free != [] && f == free[0]
    ensures FreeOk(refs[f := 1], free[1..], next)
  {
    var rest := free[1..];
    forall g ensures g in rest <==> g in refs && g != f && refs[g] == 0 {
      if g in rest { assert g in free; }
      if g in refs && g != f && refs[g] == 0 {
        assert g in free;
        var i :| 0 <= i < |free| && free[i] == g;
        assert rest[i - 1] == g;
      }
    }
  }

  lemma NextFree(refs: map<int, int>, next: int)
    requires forall f :: f in refs <==> InPool(f) && f < next
    ensures next !in refs
  {
  }

  lemma Bumped(refs: map<int, int>, free: seq<int>, next: int)
    requires FreeOk(refs, free, next) && next < POOL_END
    ensures FreeOk(refs[next := 1], free, next + 4096)
      && (POOL_END - (next + 4096)) / 4096 == (POOL_END - next) / 4096 - 1
  {
  }

  /** What has one count and a pointer is not owed. */
  lemma AloneLess(refs: map<int, int>, held: map<Holder, int>, bits: map<Holder, Bits>, owed: multiset<int>, f: int)
    requires Exact(refs, held, owed) && Alone(refs, held, bits) && f in owed
    ensures Alone(refs[f := refs[f] - 1], held, bits)
  {
    forall h | h in held && refs[held[h]] == 1 ensures held[h] != f {
      HeldCounts(held, h);
      assert refs[held[h]] == Count(held, held[h]) + owed[held[h]];
    }
  }

  /** A frame that is mapped and counted once is not in the cache. */
  lemma Uncached(refs: map<int, int>, held: map<Holder, int>, h: Holder, f: int)
    requires Exact(refs, held, multiset{}) && h in held && h.Entry? && held[h] == f && refs[f] <= 1
    ensures forall i :: Slot(i) in held ==> held[Slot(i)] != f
  {
    assert refs[f] == Count(held, f) + 0;
    forall i | Slot(i) in held ensures held[Slot(i)] != f {
      if held[Slot(i)] == f { OneHolder(held, h, Slot(i)); }
    }
  }

  /** A frame counted more than once has another pointer. */
  lemma Mapped(refs: map<int, int>, held: map<Holder, int>, h: Holder)
    requires Exact(refs, held, multiset{}) && h in held && refs[held[h]] != 1
    ensures exists j :: j in held && j != h && held[j] == held[h]
  {
    var f := held[h];
    assert refs[f] == Count(held, f) + 0;
    var s := HoldersOf(held, f);
    assert h in s;
    assert |{h}| == 1;
    assert s != {h};
    var j :| j in s && j != h;
  }

  lemma DetachSlot(refs: map<int, int>, held: map<Holder, int>, bits: map<Holder, Bits>, meta: map<int, Cached>, i: int)
    requires Exact(refs, held, multiset{}) && Shaped(held, bits) && Alone(refs, held, bits) && CacheOk(held, meta)
      && Slot(i) in held
    ensures var held', meta' := held - {Slot(i)}, meta - {i};
      Exact(refs, held', multiset{held[Slot(i)]}) && Shaped(held', bits) && Alone(refs, held', bits)
        && CacheOk(held', meta')
  {
    ExactDetach(refs, held, multiset{}, Slot(i));
    assert multiset{} + multiset{held[Slot(i)]} == multiset{held[Slot(i)]};
  }

  /** Tables and entries, and what they show, are as they were. */
  ghost predicate Unseen(held: map<Holder, int>, data: map<int, Page>, held': map<Holder, int>, data': map<int, Page>) {
    forall h: Holder :: !h.Slot? ==>
      (h in held <==> h in held') && (h in held ==> held'[h] == held[h] && SameAt(data, data', held[h]))
  }

  /** Every pointer but one, and what it shows, is as it was. */
  ghost predicate AllBut(held: map<Holder, int>, data: map<int, Page>, held': map<Holder, int>, data': map<int, Page>,
                         but: Holder) {
    forall h: Holder :: h != but ==>
      (h in held <==> h in held') && (h in held ==> held'[h] == held[h] && SameAt(data, data', held[h]))
  }

  lemma SlotApart(held: map<Holder, int>, data: map<int, Page>, held': map<Holder, int>, data': map<int, Page>, i: int)
    requires AllBut(held, data, held', data', Slot(i))
    ensures Unseen(held, data, held', data') && forall j :: j != i ==> SameSlot(held, held', j)
  {
  }

  lemma AllButNow(held: map<Holder, int>, data: map<int, Page>, held': map<Holder, int>, data': map<int, Page>, i: int,
                  f: int)
    requires (forall j :: j in held ==> held[j] != f) && Slot(i) !in held
      && (held' == held || held' == held[Slot(i) := f]) && f in data' && data' == data[f := data'[f]]
    ensures AllBut(held, data, held', data', Slot(i))
  {
  }

  /** Entry h has a frame of its own with the same contents; every other pointer and frame is as it was. */
  ghost predicate Own(held: map<Holder, int>, data: map<int, Page>, bits: map<Holder, Bits>, held': map<Holder, int>,
                      data': map<int, Page>, bits': map<Holder, Bits>, h: Holder) {
    && h in held && h in held' && held' == held[h := held'[h]] && bits' == bits[h := Bits(true, true, false, false)]
    && (held[h] in data <==> held'[h] in data') && (held[h] in data ==> data'[held'[h]] == data[held[h]])
    && (forall j :: j in held ==> held[j] != held'[h]) && Kept(held, data, data')
  }

  lemma OwnNow(held: map<Holder, int>, data: map<int, Page>, bits: map<Holder, Bits>, data': map<int, Page>, h: Holder,
               f: int)
    requires h in held && (forall j :: j in held ==> held[j] != f) && forall g :: g != f ==> SameAt(data, data', g)
    requires (held[h] in data' <==> f in data') && (held[h] in data' ==> data'[f] == data'[held[h]])
    ensures Own(held, data, bits, held[h := f], data', bits[h := Bits(true, true, false, false)], h)
  {
    assert SameAt(data, data', held[h]);
  }

  lemma SomeLeft(free: seq<int>, next: int)
    requires (free != [] || next < POOL_END) && InPoolOrEnd(next)
    ensures |free| + (POOL_END - next) / 4096 > 0
  {
  }

  lemma AttachSlot(refs: map<int, int>, held: map<Holder, int>, bits: map<Holder, Bits>, meta: map<int, Cached>, i: int,
                   f: int, c: Cached)
    requires Exact(refs, held, multiset{f}) && Shaped(held, bits) && Alone(refs, held, bits) && CacheOk(held, meta)
      && Slot(i) !in held && 0 <= i < CACHE_SIZE
    requires (forall h :: h in held ==> held[h] != f) && forall j :: j in meta ==> !SamePage(meta[j], c)
    ensures var held', meta' := held[Slot(i) := f], meta[i := c];
      Exact(refs, held', multiset{}) && Shaped(held', bits) && Alone(refs, held', bits) && CacheOk(held', meta')
  {
    ExactAttach(refs, held, multiset{f}, Slot(i), f);
    assert multiset{f} - multiset{f} == multiset{};
  }

  lemma Repoint(refs: map<int, int>, held: map<Holder, int>, bits: map<Holder, Bits>, meta: map<int, Cached>, h: Holder,
                f: int)
    requires Exact(refs, held, multiset{f}) && Shaped(held, bits) && Alone(refs, held, bits) && CacheOk(held, meta)
      && h in held && h.Entry? && refs[f] == 1 && held[h] != f
    ensures var held', bits' := held[h := f], bits[h := Bits(true, true, false, false)];
      Exact(refs, held', multiset{held[h]}) && Shaped(held', bits') && Alone(refs, held', bits') && CacheOk(held', meta)
  {
    ExactDetach(refs, held, multiset{f}, h);
    ExactAttach(refs, held - {h}, multiset{f} + multiset{held[h]}, h, f);
    assert multiset{f} + multiset{held[h]} - multiset{f} == multiset{held[h]};
    assert (held - {h})[h := f] == held[h := f];
  }

  // ---- what a fault leaves ----

  /** No holder has the frame. */
  ghost predicate NewTo(held: map<Holder, int>, f: int) { forall h :: h in held ==> held[h] != f }

  /** The frame is that of the slot which has a part of a file. */
  ghost predicate FromCache(held: map<Holder, int>, meta: map<int, Cached>, part: Cached, f: int) {
    exists i :: i in meta && SamePage(meta[i], part) && Slot(i) in held && held[Slot(i)] == f
  }

  predicate SameSlot(held: map<Holder, int>, held': map<Holder, int>, i: int) {
    (Slot(i) in held <==> Slot(i) in held') && (Slot(i) in held ==> held'[Slot(i)] == held[Slot(i)])
  }

  /** Of the cache, at most one slot has changed, to hold that part of a file or to hold nothing. */
  ghost predicate CacheKept(held: map<Holder, int>, meta: map<int, Cached>, held': map<Holder, int>,
                            meta': map<int, Cached>, part: Cached) {
    exists i :: CacheKeptBut(held, meta, held', meta', part, i)
  }

  ghost predicate CacheKeptBut(held: map<Holder, int>, meta: map<int, Cached>, held': map<Holder, int>,
                               meta': map<int, Cached>, part: Cached, i: int) {
    && (forall j :: j != i ==> SameSlot(held, held', j) && (j in meta <==> j in meta'))
    && (forall j :: j != i && j in meta ==> meta'[j] == meta[j])
    && (i in meta' ==>
        (i in meta && meta'[i] == meta[i] && SameSlot(held, held', i)) || meta'[i] == part.(dirty := false))
  }

  lemma CacheSame(held: map<Holder, int>, meta: map<int, Cached>, held': map<Holder, int>, meta': map<int, Cached>,
                  part: Cached)
    requires meta' == meta && forall j :: SameSlot(held, held', j)
    ensures CacheKept(held, meta, held', meta', part)
  {
    assert CacheKeptBut(held, meta, held', meta', part, -1);
  }

  lemma SlotsKept(held: map<Holder, int>, data: map<int, Page>, meta: map<int, Cached>, files: map<Part, Page>,
                  held': map<Holder, int>, meta': map<int, Cached>, files': map<Part, Page>, part: Cached,
                  content: Page, i: int)
    requires CacheOk(held, meta) && (forall j :: j in meta ==> !SamePage(meta[j], part))
    requires (held' == held && meta' == meta) || (held' == held - {Slot(i)} && meta' == meta - {i})
    requires WrittenBack(held, data, meta, files, meta', files')
    ensures CacheKept(held, meta, held', meta', part) && Carries(held, data, meta, files, held', data, meta', files')
    ensures Unseen(held, data, held', data)
  {
    assert CacheKeptBut(held, meta, held', meta', part, i);
    Fetched(held, data, meta, files, meta', files', held', data, meta', i, part, content, false);
  }

  lemma SlotFilled(held: map<Holder, int>, meta: map<int, Cached>, mid: map<Holder, int>, mid': map<int, Cached>,
                   held': map<Holder, int>, meta': map<int, Cached>, part: Cached, i: int, readable: bool)
    requires mid == held || mid == held - {Slot(i)}
    requires (forall j :: j != i ==> SameSlot(mid, held', j)) && Slot(i) !in mid
    requires (mid' == meta || mid' == meta - {i}) && i !in mid'
    requires meta' == if readable then mid'[i := part.(dirty := false)] else mid'
    ensures CacheKept(held, meta, held', meta', part)
  {
    forall j | j != i ensures SameSlot(held, held', j) { assert SameSlot(mid, held', j); }
    assert CacheKeptBut(held, meta, held', meta', part, i);
  }

  lemma Refilled(was: map<Holder, int>, was': map<int, Cached>, had: map<Part, Page>, held: map<Holder, int>,
                 data: map<int, Page>, meta: map<int, Cached>, files: map<Part, Page>, held': map<Holder, int>,
                 data': map<int, Page>, meta': map<int, Cached>, i: int, part: Cached, content: Page, readable: bool)
    requires CacheOk(was, was') && CacheOk(held, meta) && (forall j :: j in was' ==> !SamePage(was'[j], part))
    requires (held == was || held == was - {Slot(i)}) && (meta == was' || meta == was' - {i}) && Slot(i) !in held
    requires WrittenBack(was, data, was', had, meta, files) && AllBut(held, data, held', data', Slot(i))
    requires meta' == if readable then meta[i := part.(dirty := false)] else meta
    requires readable ==> Slot(i) in held' && PageOf(data', held'[Slot(i)]) == content
    ensures Unseen(was, data, held', data') && CacheKept(was, was', held', meta', part)
    ensures Carries(was, data, was', Learned(had, part, content, readable), held', data', meta',
                    Learned(files, part, content, readable))
  {
    SlotApart(held, data, held', data', i);
    SlotFilled(was, was', held, meta, held', meta', part, i, readable);
    assert forall j :: j in meta ==> SameSlot(held, held', j) && SameAt(data, data', held[Slot(j)]);
    Fetched(was, data, was', had, meta, files, held', data', meta', i, part, content, readable);
  }

  lemma CacheMapped(held: map<Holder, int>, meta: map<int, Cached>, mid: map<Holder, int>, held': map<Holder, int>,
                    meta': map<int, Cached>, part: Cached)
    requires CacheKept(held, meta, mid, meta', part) && forall j :: SameSlot(mid, held', j)
    ensures CacheKept(held, meta, held', meta', part)
  {
    var i :| CacheKeptBut(held, meta, mid, meta', part, i);
    forall j | j != i ensures SameSlot(held, held', j) { assert SameSlot(held, mid, j) && SameSlot(mid, held', j); }
    assert SameSlot(mid, held', i);
    assert CacheKeptBut(held, meta, held', meta', part, i);
  }

  /** Slots that point where they did, at frames that show what they did, carry as much. */
  lemma CarriesOn(held: map<Holder, int>, data: map<int, Page>, meta: map<int, Cached>, files: map<Part, Page>,
                  mid: map<Holder, int>, middle: map<int, Page>, held': map<Holder, int>, data': map<int, Page>,
                  meta': map<int, Cached>, files': map<Part, Page>)
    requires Carries(held, data, meta, files, mid, middle, meta', files') && CacheOk(mid, meta')
    requires (forall j :: SameSlot(mid, held', j)) && Kept(mid, middle, data')
    ensures Carries(held, data, meta, files, held', data', meta', files')
  {
    forall i | i in meta' ensures Image(held', data', meta', i) == Image(mid, middle, meta', i) {
      assert SameSlot(mid, held', i) && SameAt(middle, data', mid[Slot(i)]);
    }
  }

  lemma CarriesSame(held: map<Holder, int>, data: map<int, Page>, meta: map<int, Cached>, files: map<Part, Page>,
                    held': map<Holder, int>, data': map<int, Page>)
    requires CacheOk(held, meta) && (forall j :: SameSlot(held, held', j)) && Kept(held, data, data')
    ensures Carries(held, data, meta, files, held', data', meta, files)
  {
    CarriesOn(held, data, meta, files, held, data, held', data', meta, files);
  }

  lemma CarriesRefault(held: map<Holder, int>, data: map<int, Page>, bits: map<Holder, Bits>, meta: map<int, Cached>,
                       files: map<Part, Page>, held': map<Holder, int>, data': map<int, Page>,
                       bits': map<Holder, Bits>, meta': map<int, Cached>, h: Holder)
    requires CacheOk(held, meta) && h.Entry? && Refaulted(held, data, bits, meta, held', data', bits', meta', h)
    ensures Carries(held, data, meta, files, held', data', meta', files)
  {
    if bits[h].cow { CarriesSame(held, data, meta, files, held', data'); }
  }

  /** The slot that has the frame must be written back. */
  ghost predicate Dirtied(held: map<Holder, int>, meta: map<int, Cached>, meta': map<int, Cached>, f: int) {
    && (forall i :: i in meta <==> i in meta')
    && (forall i :: i in meta ==>
      meta'[i] == if Slot(i) in held && held[Slot(i)] == f then meta[i].(dirty := true) else meta[i])
  }

  /** A write to a present page: one to be copied gets a frame that no one has, writable and no longer marked; a
      shared one keeps its frame, becomes writable, and its slot must be written back. */
  ghost predicate Refaulted(held: map<Holder, int>, data: map<int, Page>, bits: map<Holder, Bits>,
                            meta: map<int, Cached>, held': map<Holder, int>, data': map<int, Page>,
                            bits': map<Holder, Bits>, meta': map<int, Cached>, h: Holder) {
    && h in held && h in bits
    && if bits[h].cow then meta' == meta && Own(held, data, bits, held', data', bits', h)
    else
      && held' == held && data' == data && bits' == bits[h := bits[h].(writable := true)]
      && Dirtied(held, meta, meta', held[h])
  }

  /** Every entry but that one is as it was, and shows what it did. */
  ghost predicate Untouched(held: map<Holder, int>, data: map<int, Page>, bits: map<Holder, Bits>,
                            held': map<Holder, int>, data': map<int, Page>, bits': map<Holder, Bits>, but: Holder) {
    forall h: Holder :: h.Entry? && h != but ==>
      && (h in held <==> h in held') && (h in held ==> held'[h] == held[h] && SameAt(data, data', held[h]))
      && (h in bits <==> h in bits') && (h in bits ==> bits'[h] == bits[h])
  }

  lemma UntouchedNow(held: map<Holder, int>, data: map<int, Page>, bits: map<Holder, Bits>, mid: map<int, Page>,
                     held': map<Holder, int>, data': map<int, Page>, bits': map<Holder, Bits>, pd: int, page: int,
                     f: int, b: Bits)
    requires (forall h :: h in held ==> held[h] != f) && mid == data[f := Zero()] && SameBut(held, held', pd, page)
      && Kept(held, mid, data')
    requires bits' == bits[Entry(pd, page) := b]
    ensures Untouched(held, data, bits, held', data', bits', Entry(pd, page)) && Kept(held, data, data')
  {
    forall h | h in held ensures SameAt(data, data', held[h]) { assert SameAt(mid, data', held[h]); }
  }

  lemma UntouchedThen(held: map<Holder, int>, data: map<int, Page>, bits: map<Holder, Bits>, mid: map<Holder, int>,
                      middle: map<int, Page>, held': map<Holder, int>, data': map<int, Page>, bits': map<Holder, Bits>,
                      pd: int, page: int, b: Bits)
    requires Unseen(held, data, mid, middle) && SameBut(mid, held', pd, page) && Kept(mid, middle, data')
      && bits' == bits[Entry(pd, page) := b]
    ensures Untouched(held, data, bits, held', data', bits', Entry(pd, page))
  {
    forall h: Holder | h.Entry? && h in held ensures h in mid && SameAt(data, data', held[h]) {
      assert SameAt(data, middle, held[h]) && SameAt(middle, data', mid[h]);
    }
  }

  /** A cached frame is no table and no private page. */
  lemma Shareable(refs: map<int, int>, held: map<Holder, int>, bits: map<Holder, Bits>, i: int)
    requires Exact(refs, held, multiset{}) && Alone(refs, held, bits) && Shaped(held, bits) && Slot(i) in held
    ensures refs[held[Slot(i)]] > 0
      && forall h :: h in held && held[h] == held[Slot(i)] ==> !h.Dir? && !h.Table? && (h in bits ==> !Private(bits[h]))
  {
    var f := held[Slot(i)];
    assert refs[f] == Count(held, f) + 0;
    HeldCounts(held, Slot(i));
    forall h | h in held && held[h] == f && refs[f] == 1 ensures h == Slot(i) { OneHolder(held, h, Slot(i)); }
  }

  /** The area a page is in, as far as a fault asks. */
  datatype Mapping = Unmapped | Mapping(none: bool, canWrite: bool, anonymous: bool, shared: bool, own: bool)

  /** The access may be granted: anything within the break, and what its protection allows in an area. */
  predicate Permits(area: Mapping, inBreak: bool, write: bool) {
    if area.Unmapped? then inBreak else !area.none && (write ==> area.canWrite)
  }

  /** The flags after a protection change: without the right to write only that goes; a page of a shared file
      will be shared when written, and any other is writable at once exactly when it is not to be copied and its
      frame is counted once. */
  predicate Reprotected(b: Bits, b': Bits, canWrite: bool, sharedFile: bool, count: int) {
    if !canWrite then !b'.writable && b'.cow == b.cow && b'.shared == b.shared
    else if sharedFile then b'.shared && !b'.cow && !b'.writable
    else !b'.shared && (b'.writable <==> !b.cow && count == 1) && (b'.cow <==> !b'.writable)
  }

  /** A page of a file is never writable at first: it is shared, to be copied, or only read. */
  function FileBits(canWrite: bool, shared: bool, own: bool): Bits {
    Bits(true, false, canWrite && !shared && own, canWrite && shared)
  }

  function FirstBits(area: Mapping): Bits {
    if area.Unmapped? then Bits(true, true, false, false)
    else if area.anonymous then Bits(true, area.canWrite, false, false)
    else FileBits(area.canWrite, area.shared, area.own)
  }

  const FIRST_PAGE := 0x4000
  const END_PAGE := 0x8000

  predicate Writes(area: Mapping) { area.Mapping? ==> area.canWrite }

  predicate Anon(area: Mapping) { area.Mapping? ==> area.anonymous }

  lemma OnceCounted(refs: map<int, int>, held: map<Holder, int>, h: Holder)
    requires Exact(refs, held, multiset{}) && h in held && refs[held[h]] <= 1
    ensures refs[held[h]] == 1
  {
    assert refs[held[h]] == Count(held, held[h]) + 0;
    HeldCounts(held, h);
  }

  /** The flags both sides of a fork get: a private page is to be copied before it is written. */
  function Down(b: Bits): Bits { if !b.shared && (b.writable || b.cow) then b.(writable := false, cow := true) else b }

  /** Some entry of the space points at the frame of a slot. */
  ghost predicate HasFrame(held: map<Holder, int>, pd: int, i: int) {
    Slot(i) in held && exists page :: PointsAt(held, pd, page, i)
  }

  predicate PointsAt(held: map<Holder, int>, pd: int, page: int, i: int) {
    Entry(pd, page) in held && Slot(i) in held && held[Entry(pd, page)] == held[Slot(i)]
  }

  /** Of the entries the space had, those that are gone have had the slots of their pages written back; nothing
      else has been. */
  ghost predicate Cleaned(held0: map<Holder, int>, held: map<Holder, int>, meta0: map<int, Cached>,
                          meta: map<int, Cached>, pd: int) {
    && (forall i :: i in meta <==> i in meta0)
    && (forall h :: h in held ==> h in held0 && held0[h] == held[h])
    && (forall i :: Slot(i) in held0 ==> Slot(i) in held)
    && (forall i :: i in meta ==>
        meta[i] == meta0[i] || (meta[i] == meta0[i].(dirty := false) && HasFrame(held0, pd, i)))
    && (forall i, page :: i in meta && PointsAt(held0, pd, page, i) && Entry(pd, page) !in held ==> !meta[i].dirty)
  }

  /** The same, with the files, kept folded. */
  ghost predicate Clearing(held0: map<Holder, int>, held: map<Holder, int>, data: map<int, Page>,
                           meta0: map<int, Cached>, meta: map<int, Cached>, files0: map<Part, Page>,
                           files: map<Part, Page>, pd: int) {
    forall z: int :: Shown(z, held, meta) ==>
      CacheOk(held0, meta0) && Cleaned(held0, held, meta0, meta, pd)
      && WrittenBack(held0, data, meta0, files0, meta, files)
  }

  lemma ClearingMore(held0: map<Holder, int>, held: map<Holder, int>, data: map<int, Page>, meta0: map<int, Cached>,
                     meta: map<int, Cached>, files0: map<Part, Page>, files: map<Part, Page>, meta': map<int, Cached>,
                     files': map<Part, Page>, pd: int, page: int)
    requires Clearing(held0, held, data, meta0, meta, files0, files, pd) && Entry(pd, page) in held
    requires (forall i :: i in meta <==> i in meta') && (forall i :: i in meta ==> Slot(i) in held)
    requires forall i :: i in meta ==>
      meta'[i] == if held[Slot(i)] == held[Entry(pd, page)] then meta[i].(dirty := false) else meta[i]
    requires WrittenBack(held, data, meta, files, meta', files')
    ensures Clearing(held0, held - {Entry(pd, page)}, data, meta0, meta', files0, files', pd)
  {
    assert Shown(0, held, meta);
    CleanedMore(held0, held, meta0, meta, meta', pd, page);
    WrittenThen(held0, data, meta0, files0, held, meta, files, meta', files');
  }

  lemma ClearingDrop(held0: map<Holder, int>, held: map<Holder, int>, data: map<int, Page>, meta0: map<int, Cached>,
                     meta: map<int, Cached>, files0: map<Part, Page>, files: map<Part, Page>, pd: int, h: Holder)
    requires Clearing(held0, held, data, meta0, meta, files0, files, pd) && !h.Entry? && !h.Slot?
    ensures Clearing(held0, held - {h}, data, meta0, meta, files0, files, pd)
  {
    assert Shown(0, held, meta);
    CleanedDrop(held0, held, meta0, meta, pd, h);
  }

  lemma CleanedMore(held0: map<Holder, int>, held: map<Holder, int>, meta0: map<int, Cached>, meta: map<int, Cached>,
                    meta': map<int, Cached>, pd: int, page: int)
    requires Cleaned(held0, held, meta0, meta, pd) && Entry(pd, page) in held
    requires (forall i :: i in meta <==> i in meta') && (forall i :: i in meta ==> Slot(i) in held)
    requires forall i :: i in meta ==>
      meta'[i] == if held[Slot(i)] == held[Entry(pd, page)] then meta[i].(dirty := false) else meta[i]
    ensures Cleaned(held0, held - {Entry(pd, page)}, meta0, meta', pd)
  {
    var held' := held - {Entry(pd, page)};
    forall i | i in meta'
      ensures meta'[i] == meta0[i] || (meta'[i] == meta0[i].(dirty := false) && HasFrame(held0, pd, i))
    {
      if meta'[i] != meta[i] { assert PointsAt(held0, pd, page, i); }
    }
    forall i, page' | i in meta' && PointsAt(held0, pd, page', i) && Entry(pd, page') !in held'
      ensures !meta'[i].dirty
    {
      if page' != page { assert Entry(pd, page') !in held; }
    }
  }

  lemma CleanedDrop(held0: map<Holder, int>, held: map<Holder, int>, meta0: map<int, Cached>, meta: map<int, Cached>,
                    pd: int, h: Holder)
    requires Cleaned(held0, held, meta0, meta, pd) && !h.Entry? && !h.Slot?
    ensures Cleaned(held0, held - {h}, meta0, meta, pd)
  {
  }

  lemma CleanedAll(held0: map<Holder, int>, held: map<Holder, int>, bits: map<Holder, Bits>, meta0: map<int, Cached>,
                   meta: map<int, Cached>, pd: int)
    requires Cleaned(held0, held, meta0, meta, pd) && NoTables(held, pd) && Shaped(held, bits)
    ensures forall i :: i in meta ==>
      meta[i] == if HasFrame(held0, pd, i) then meta0[i].(dirty := false) else meta0[i]
  {
    forall i | i in meta && HasFrame(held0, pd, i) ensures !meta[i].dirty {
      var page :| PointsAt(held0, pd, page, i);
      assert Table(pd, page / 1024) !in held;
      assert Entry(pd, page) !in held;
    }
  }

  predicate Belongs(h: Holder, pd: int) { !h.Slot? && h.pd == pd }

  function Without(held: map<Holder, int>, pd: int): map<Holder, int> {
    map h | h in held && !Belongs(h, pd) :: held[h]
  }

  /** How many tables a space has from di on. */
  function TablesFrom(held: map<Holder, int>, pd: int, di: nat): nat
    decreases 1024 - di
  {
    if di >= 1024 then 0 else (if Table(pd, di) in held then 1 else 0) + TablesFrom(held, pd, di + 1)
  }

  /** Pages below p have been shared with dst; the rest is as at the start. */
  ghost predicate Copied(held: map<Holder, int>, data: map<int, Page>, bits: map<Holder, Bits>, held': map<Holder, int>,
                         data': map<int, Page>, bits': map<Holder, Bits>, src: int, dst: int, p: int) {
    CopiedPointers(held, held', src, dst, p) && CopiedBits(bits, bits', src, dst, p) && Kept(held, data, data')
  }

  ghost predicate CopiedPointers(held: map<Holder, int>, held': map<Holder, int>, src: int, dst: int, p: int) {
    && (forall h: Holder :: h in held ==> !(Belongs(h, dst) && !h.Dir?))
    && (forall h: Holder :: !(Belongs(h, dst) && !h.Dir?) ==>
        (h in held <==> h in held') && (h in held ==> held'[h] == held[h]))
    && (forall q :: Entry(dst, q) in held' <==> Entry(src, q) in held && q < p)
    && (forall q :: Entry(dst, q) in held' ==> held'[Entry(dst, q)] == held[Entry(src, q)])
  }

  ghost predicate CopiedBits(bits: map<Holder, Bits>, bits': map<Holder, Bits>, src: int, dst: int, p: int) {
    && (forall q :: Entry(dst, q) !in bits)
    && (forall h :: h in bits ==>
        h in bits' && bits'[h] == if h.Entry? && h.pd == src && h.page < p then Down(bits[h]) else bits[h])
    && (forall q :: Entry(dst, q) in bits' ==>
        Entry(src, q) in bits && bits'[Entry(dst, q)] == Down(bits[Entry(src, q)]))
    && (forall h: Holder :: h in bits' && !Belongs(h, dst) ==> h in bits)
  }

  ghost predicate CopiedSoFar(held: map<Holder, int>, data: map<int, Page>, bits: map<Holder, Bits>,
                              held': map<Holder, int>, data': map<int, Page>, bits': map<Holder, Bits>, src: int,
                              dst: int, p: int) {
    forall z: int :: Shown(z, held', bits') ==>
      Shaped(held, bits) && Copied(held, data, bits, held', data', bits', src, dst, p)
  }

  lemma SameTable(held: map<Holder, int>, data: map<int, Page>, bits: map<Holder, Bits>, held': map<Holder, int>,
                  data': map<int, Page>, bits': map<Holder, Bits>, src: int, dst: int, di: int)
    requires CopiedSoFar(held, data, bits, held', data', bits', src, dst, 1024 * di) && src != dst
    ensures Table(src, di) in held <==> Table(src, di) in held'
  {
    assert Shown(0, held', bits');
    assert !Belongs(Table(src, di), dst);
  }

  /** So the child sees what the parent saw, and the parent still sees it. */
  lemma ForkSees(held: map<Holder, int>, data: map<int, Page>, bits: map<Holder, Bits>, held': map<Holder, int>,
                 data': map<int, Page>, bits': map<Holder, Bits>, src: int, dst: int, page: int)
    requires Copied(held, data, bits, held', data', bits', src, dst, 1024 * 1024) && Shaped(held, bits) && src != dst
    ensures Entry(dst, page) in held' <==> Entry(src, page) in held
    ensures Entry(src, page) in held ==>
      held'[Entry(dst, page)] == held'[Entry(src, page)] == held[Entry(src, page)]
      && SameAt(data, data', held[Entry(src, page)])
    ensures Entry(src, page) in bits ==>
      && Entry(dst, page) in held' && Entry(src, page) in bits' && !Private(bits'[Entry(src, page)])
      && var b, b' := bits[Entry(src, page)], bits'[Entry(src, page)];
        if b.shared || (!b.writable && !b.cow) then b' == b
        else b' == Bits(b.user, false, true, false)
    ensures Entry(dst, page) in bits' ==>
      Entry(src, page) in bits && bits'[Entry(dst, page)] == bits'[Entry(src, page)]
  {
    if Entry(src, page) in held { assert Table(src, page / 1024) in held; }
  }

  /** What every holder shows after a fork, the child's entries included. */
  lemma ForkKept(held: map<Holder, int>, data: map<int, Page>, bits: map<Holder, Bits>, held': map<Holder, int>,
                 data': map<int, Page>, bits': map<Holder, Bits>, src: int, dst: int)
    requires Copied(held, data, bits, held', data', bits', src, dst, 1024 * 1024)
    ensures forall h :: h in held ==> h in held' && PageOf(data', held'[h]) == PageOf(data, held[h])
    ensures forall q :: Entry(dst, q) in held' ==>
      Entry(src, q) in held && PageOf(data', held'[Entry(dst, q)]) == PageOf(data, held[Entry(src, q)])
  {
    forall h | h in held ensures h in held' && held'[h] == held[h] && SameAt(data, data', held[h]) {}
  }

  /** A frame an entry points at, not for itself alone, may be shared. */
  lemma Retainable(refs: map<int, int>, held: map<Holder, int>, bits: map<Holder, Bits>, h: Holder)
    requires Exact(refs, held, multiset{}) && Alone(refs, held, bits) && h in bits && h in held && h.Entry?
      && !Private(bits[h])
    ensures refs[held[h]] > 0
      && forall j :: j in held && held[j] == held[h] ==> !j.Dir? && !j.Table? && (j in bits ==> !Private(bits[j]))
  {
    var f := held[h];
    assert refs[f] == Count(held, f) + 0;
    HeldCounts(held, h);
    forall j | j in held && held[j] == f && refs[f] == 1 ensures j == h { OneHolder(held, h, j); }
  }

  lemma CopiedStart(held: map<Holder, int>, data: map<int, Page>, bits: map<Holder, Bits>, src: int, dst: int)
    requires Shaped(held, bits) && NoTables(held, dst)
    ensures Copied(held, data, bits, held, data, bits, src, dst, 1024 * FIRST_TABLE)
  {
    forall q | Entry(src, q) in held ensures q >= 1024 * FIRST_TABLE { assert Table(src, q / 1024) in held; }
    forall q ensures Entry(dst, q) !in held {
      assert Table(dst, q / 1024) !in held;
    }
  }

  lemma CopiedSkip(held: map<Holder, int>, data: map<int, Page>, bits: map<Holder, Bits>, held': map<Holder, int>,
                   data': map<int, Page>, bits': map<Holder, Bits>, src: int, dst: int, p: int)
    requires Copied(held, data, bits, held', data', bits', src, dst, p) && src != dst && Entry(src, p) !in held'
      && (forall h :: h in bits ==> h in held)
    ensures Copied(held, data, bits, held', data', bits', src, dst, p + 1)
  {
  }

  lemma CopiedOver(held: map<Holder, int>, data: map<int, Page>, bits: map<Holder, Bits>, held': map<Holder, int>,
                   data': map<int, Page>, bits': map<Holder, Bits>, src: int, dst: int, di: int)
    requires CopiedSoFar(held, data, bits, held', data', bits', src, dst, 1024 * di) && src != dst
      && Table(src, di) !in held'
    ensures CopiedSoFar(held, data, bits, held', data', bits', src, dst, 1024 * (di + 1))
  {
    assert Shown(0, held', bits');
    forall q | Entry(src, q) in held ensures q < 1024 * di || 1024 * (di + 1) <= q {
      assert Table(src, q / 1024) in held;
      TableOf(q, di);
    }
  }

  lemma CopiedNext(held0: map<Holder, int>, data0: map<int, Page>, bits0: map<Holder, Bits>, held: map<Holder, int>,
                   data: map<int, Page>, bits: map<Holder, Bits>, held': map<Holder, int>, data': map<int, Page>,
                   bits': map<Holder, Bits>, src: int, dst: int, page: int)
    requires CopiedSoFar(held0, data0, bits0, held, data, bits, src, dst, page) && src != dst
      && Entry(src, page) in held && Entry(src, page) in bits
    requires SameBut(held, held', dst, page) && Kept(held, data, data') && Entry(dst, page) in held'
      && held'[Entry(dst, page)] == held[Entry(src, page)]
    requires bits' == bits[Entry(src, page) := Down(bits[Entry(src, page)])][Entry(dst,
        page) := Down(bits[Entry(src, page)])]
    ensures CopiedSoFar(held0, data0, bits0, held', data', bits', src, dst, page + 1)
  {
    assert Shown(0, held, bits);
    NextPointers(held0, held, held', src, dst, page);
    NextBits(bits0, bits, bits', src, dst, page);
    forall h | h in held0 ensures SameAt(data0, data', held0[h]) {
      CopiedData(held0, data0, held, data, data', dst, h);
    }
  }

  lemma NextPointers(held0: map<Holder, int>, held: map<Holder, int>, held': map<Holder, int>, src: int, dst: int,
                     page: int)
    requires CopiedPointers(held0, held, src, dst, page) && src != dst && SameBut(held, held', dst, page)
      && Entry(src, page) in held
    requires Entry(dst, page) in held' && held'[Entry(dst, page)] == held[Entry(src, page)]
    ensures CopiedPointers(held0, held', src, dst, page + 1)
  {
  }

  lemma NextBits(bits0: map<Holder, Bits>, bits: map<Holder, Bits>, bits': map<Holder, Bits>, src: int, dst: int,
                 page: int)
    requires CopiedBits(bits0, bits, src, dst, page) && src != dst && Entry(src, page) in bits
    requires bits' == bits[Entry(src, page) := Down(bits[Entry(src, page)])][Entry(dst,
        page) := Down(bits[Entry(src, page)])]
    ensures CopiedBits(bits0, bits', src, dst, page + 1)
  {
  }

  lemma NotYet(held0: map<Holder, int>, data0: map<int, Page>, bits0: map<Holder, Bits>, held: map<Holder, int>,
               data: map<int, Page>, bits: map<Holder, Bits>, src: int, dst: int, page: int)
    requires CopiedSoFar(held0, data0, bits0, held, data, bits, src, dst, page)
    ensures Entry(dst, page) !in held
  {
    assert Shown(0, held, bits);
  }

  lemma CopiedData(held0: map<Holder, int>, data0: map<int, Page>, held: map<Holder, int>, data: map<int, Page>,
                   data': map<int, Page>, dst: int, h: Holder)
    requires Kept(held0, data0, data) && Kept(held, data, data') && h in held0 && h in held && held[h] == held0[h]
    ensures SameAt(data0, data', held0[h])
  {
    assert SameAt(data0, data, held0[h]) && SameAt(data, data', held[h]);
  }

  predicate InDir(h: Holder, pd: int, di: int) { (h.Entry? && h.pd == pd && h.page / 1024 == di) || h == Table(pd, di) }

  /** Some pointers of one table are gone, and nothing else. */
  ghost predicate Gone(held: map<Holder, int>, bits: map<Holder, Bits>, held': map<Holder, int>,
                       bits': map<Holder, Bits>, pd: int, di: int) {
    && (forall h: Holder :: h in held' ==> h in held && held'[h] == held[h])
    && (forall h: Holder :: h in held && !InDir(h, pd, di) ==> h in held')
    && (forall h :: h in bits' ==> h in bits && bits'[h] == bits[h])
  }

  lemma TableOf(page: int, di: int)
    ensures page / 1024 == di <==> 1024 * di <= page < 1024 * (di + 1)
  {
  }

  lemma AllGone(held: map<Holder, int>, held': map<Holder, int>, bits': map<Holder, Bits>, pd: int)
    requires Shaped(held', bits') && Dir(pd) !in held'
    requires (forall h: Holder :: h in held' ==> h in held && held'[h] == held[h])
      && forall h: Holder :: h in held && !Belongs(h, pd) ==> h in held'
    ensures held' == Without(held, pd)
  {
    forall h: Holder | h in held' ensures !Belongs(h, pd) {
      if h.Entry? { assert Table(h.pd, h.page / 1024) in held'; }
    }
  }
}
