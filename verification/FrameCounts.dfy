/** Every pointer to a physical frame: page directories, page tables, table entries and page-cache slots. */
module FrameCounts {
  /** Who points at a frame; a page is named by its number. */
  datatype Holder = Dir(pd: int) | Table(pd: int, di: int) | Entry(pd: int, page: int) | Slot(slot: int)

  /** The flags of a present page-table entry. */
  datatype Bits = Bits(user: bool, writable: bool, cow: bool, shared: bool)

  function HoldersOf(held: map<Holder, int>, f: int): set<Holder> { set h | h in held && held[h] == f }

  /** How many pointers there are to a frame. */
  function Count(held: map<Holder, int>, f: int): nat { |HoldersOf(held, f)| }

  lemma CountAdd(held: map<Holder, int>, h: Holder, f: int, g: int)
    requires h !in held
    ensures Count(held[h := f], g) == Count(held, g) + if g == f then 1 else 0
  {
    var s, t := HoldersOf(held, g), HoldersOf(held[h := f], g);
    if g == f { assert t == s + {h}; } else { assert t == s; }
  }

  lemma CountDrop(held: map<Holder, int>, h: Holder, g: int)
    requires h in held
    ensures Count(held, g) == Count(held - {h}, g) + if g == held[h] then 1 else 0
  {
    var s, t := HoldersOf(held, g), HoldersOf(held - {h}, g);
    if g == held[h] { assert s == t + {h}; } else { assert t == s; }
  }

  /** A frame with one pointer to it has no other. */
  lemma OneHolder(held: map<Holder, int>, h: Holder, j: Holder)
    requires h in held && j in held && held[h] == held[j] && Count(held, held[h]) <= 1
    ensures h == j
  {
    var s := HoldersOf(held, held[h]);
    assert {h, j} <= s;
    if h != j {
      assert |{h, j}| == 2;
      Cardinal({h, j}, s);
    }
  }

  lemma {:induction false} Cardinal<T>(a: set<T>, b: set<T>)
    requires a <= b
    ensures |a| <= |b|
    decreases a
  {
    if x :| x in a {
      Cardinal(a - {x}, b - {x});
    }
  }

  lemma HeldCounts(held: map<Holder, int>, h: Holder)
    requires h in held
    ensures Count(held, held[h]) > 0
  {
    assert h in HoldersOf(held, held[h]);
  }

  lemma NotHeld(held: map<Holder, int>, f: int)
    requires Count(held, f) == 0
    ensures forall h :: h in held ==> held[h] != f
  {
    forall h | h in held ensures held[h] != f {
      if held[h] == f { HeldCounts(held, h); }
    }
  }

  // ---- the invariant ----

  const POOL_BASE := 0x10_0000
  const POOL_END := 0x400_0000

  /** The tables below this one belong to the kernel and are shared by all. */
  const FIRST_TABLE := 16
  const CACHE_SIZE := 128

  predicate InPool(f: int) { POOL_BASE <= f < POOL_END && f % 4096 == 0 }

  /** Each count is the number of pointers, plus what is owed: counts already taken or not yet given back. */
  ghost predicate Exact(refs: map<int, int>, held: map<Holder, int>, owed: multiset<int>) {
    && (forall f {:trigger Count(held, f)} :: f in refs ==> refs[f] == Count(held, f) + owed[f])
    && (forall h :: h in held ==> held[h] in refs) && (forall f :: f in owed ==> f in refs)
  }

  /** The free list holds exactly the frames with count 0, each once; frames from next on have never been used. */
  ghost predicate FreeOk(refs: map<int, int>, free: seq<int>, next: int) {
    && InPoolOrEnd(next) && (forall f :: f in refs <==> InPool(f) && f < next)
    && (forall f :: f in free <==> f in refs && refs[f] == 0)
    && (forall i, j :: 0 <= i < j < |free| ==> free[i] != free[j])
  }

  predicate InPoolOrEnd(f: int) { POOL_BASE <= f <= POOL_END && f % 4096 == 0 }

  predicate Private(b: Bits) { b.writable && !b.shared }

  /** Tables have tables above them, entries have bits, and no two cache slots have one frame. */
  ghost predicate Shaped(held: map<Holder, int>, bits: map<Holder, Bits>) {
    && (forall pd, di :: Table(pd, di) in held ==> Dir(pd) in held && FIRST_TABLE <= di < 1024)
    && (forall pd, page :: Entry(pd, page) in held ==> Table(pd, page / 1024) in held)
    && (forall pd :: Dir(pd) in held ==> held[Dir(pd)] == pd)
    && (forall h :: h in bits <==> h in held && h.Entry?)
    && (forall i, j :: Slot(i) in held && Slot(j) in held && held[Slot(i)] == held[Slot(j)] ==> i == j)
  }

  /** Tables, directories and writable pages that are not shared are pointed at once. */
  ghost predicate Alone(refs: map<int, int>, held: map<Holder, int>, bits: map<Holder, Bits>) {
    && (forall h :: h in held && (h.Dir? || h.Table?) ==> held[h] in refs && refs[held[h]] == 1)
    && (forall h :: h in bits && Private(bits[h]) ==> h in held && held[h] in refs && refs[held[h]] == 1)
  }

  /** A writable page that is not shared is its frame's only pointer. */
  lemma OnlyPointer(refs: map<int, int>, held: map<Holder, int>, bits: map<Holder, Bits>, h: Holder, j: Holder)
    requires Exact(refs, held, multiset{}) && Alone(refs, held, bits) && h in bits && Private(bits[h]) && j in held
      && held[j] == held[h]
    ensures j == h
  {
    assert refs[held[h]] == Count(held, held[h]) + 0;
    OneHolder(held, h, j);
  }

  lemma ExactAttach(refs: map<int, int>, held: map<Holder, int>, owed: multiset<int>, h: Holder, f: int)
    requires Exact(refs, held, owed) && h !in held && f in owed
    ensures Exact(refs, held[h := f], owed - multiset{f})
  {
    forall g | g in refs ensures refs[g] == Count(held[h := f], g) + (owed - multiset{f})[g] {
      CountAdd(held, h, f, g);
    }
  }

  lemma ExactDetach(refs: map<int, int>, held: map<Holder, int>, owed: multiset<int>, h: Holder)
    requires Exact(refs, held, owed) && h in held
    ensures Exact(refs, held - {h}, owed + multiset{held[h]})
  {
    forall g | g in refs ensures refs[g] == Count(held - {h}, g) + (owed + multiset{held[h]})[g] {
      CountDrop(held, h, g);
    }
  }

  lemma ExactMore(refs: map<int, int>, held: map<Holder, int>, owed: multiset<int>, f: int)
    requires Exact(refs, held, owed) && f in refs
    ensures Exact(refs[f := refs[f] + 1], held, owed + multiset{f})
  {
  }

  lemma ExactLess(refs: map<int, int>, held: map<Holder, int>, owed: multiset<int>, f: int)
    requires Exact(refs, held, owed) && f in owed
    ensures refs[f] >= 1 && Exact(refs[f := refs[f] - 1], held, owed - multiset{f})
  {
    assert refs[f] == Count(held, f) + owed[f];
  }

  lemma ExactNew(refs: map<int, int>, held: map<Holder, int>, owed: multiset<int>, f: int)
    requires Exact(refs, held, owed) && f !in refs
    ensures Exact(refs[f := 1], held, owed + multiset{f})
  {
    forall h | h in held ensures held[h] != f { }
    assert HoldersOf(held, f) == {};
    assert owed[f] == 0;
  }
}
