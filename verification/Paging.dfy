/** Two-level page tables in physical memory, and who uses which frame.

    A use is a reason a frame is taken: a live page directory, a page table named by a directory
    entry, or a page mapped by a table entry. The reference counts are exactly the numbers of uses. */
module Paging {
  import opened Bits
  import opened Bytes
  import opened Words

  /** Physical memory, page by page; a frame is a page number. */
  type Memory = seq<seq<u8>>

  datatype Use = Dir(pd: nat) | Tab(pd: nat, di: nat) | Map(pd: nat, di: nat, ti: nat)

  type Uses = map<nat, set<Use>>

  predicate ValidUse(u: Use) {
    match u
    case Dir(_) => true
    case Tab(_, di) => di < 1024
    case Map(_, di, ti) => di < 1024 && ti < 1024
  }

  // ---- entries ----

  /** Word i of a page. */
  function Word(m: Memory, f: int, i: nat): u32
    requires i < 1024
  {
    if 0 <= f < |m| && |m[f]| == 4096 then Read32(m[f], 4 * i) else 0
  }

  predicate Present(w: nat) { TestBit(w, 0) }
  predicate Writable(w: nat) { TestBit(w, 1) }
  predicate UserPage(w: nat) { TestBit(w, 2) }
  predicate Cow(w: nat) { TestBit(w, 9) }

  /** The frame an entry names, or -1. */
  function FrameOf(w: nat): int { if Present(w) then w / 4096 else -1 }

  /** The page table named by a directory entry, or -1. */
  function Table(m: Memory, pd: nat, di: nat): int
    requires di < 1024
  {
    FrameOf(Word(m, pd, di))
  }

  /** The entry for a page; 0 when there is no table. */
  function Pte(m: Memory, pd: nat, di: nat, ti: nat): u32
    requires di < 1024 && ti < 1024
  {
    Word(m, Table(m, pd, di), ti)
  }

  function Frame(m: Memory, u: Use): int
    requires ValidUse(u)
  {
    match u
    case Dir(pd) => pd
    case Tab(pd, di) => Table(m, pd, di)
    case Map(pd, di, ti) => FrameOf(Pte(m, pd, di, ti))
  }

  predicate MayWrite(m: Memory, u: Use)
    requires ValidUse(u)
  {
    u.Map? && Writable(Pte(m, u.pd, u.di, u.ti))
  }

  /** A byte as seen through an address space, or -1 where nothing is mapped. */
  function Sees(m: Memory, pd: nat, di: nat, ti: nat, off: nat): int
    requires di < 1024 && ti < 1024 && off < 4096
  {
    var f := FrameOf(Pte(m, pd, di, ti));
    if 0 <= f < |m| && |m[f]| == 4096 then m[f][off] else -1
  }

  ghost predicate SameView(m: Memory, pd: nat, m': Memory, pd': nat) {
    forall di, ti, off {:trigger Sees(m', pd', di, ti, off)} :: 0 <= di < 1024 && 0 <= ti < 1024 && 0 <= off < 4096 ==>
      Sees(m', pd', di, ti, off) == Sees(m, pd, di, ti, off)
  }

  // ---- the invariant ----

  predicate Paged(m: Memory) { forall f :: 0 <= f < |m| ==> |m[f]| == 4096 }

  /** Uses of live spaces, except those already given up, are recorded, and only those. */
  ghost predicate Recorded(m: Memory, spaces: set<nat>, uses: Uses, gone: set<Use>) {
    && (forall u :: ValidUse(u) && u.pd in spaces && u !in gone && Frame(m, u) >= 0 ==>
        Frame(m, u) in uses && u in uses[Frame(m, u)])
    && (forall f, u :: f in uses && u in uses[f] ==>
        ValidUse(u) && u.pd in spaces && u !in gone && Frame(m, u) == f)
  }

  /** Directories and tables are nobody else's, and neither is a page that may be written. */
  ghost predicate Exclusive(m: Memory, uses: Uses) {
    forall f, u :: f in uses && u in uses[f] && ValidUse(u) && (!u.Map? || MayWrite(m, u)) ==> uses[f] == {u}
  }

  ghost predicate Managed(uses: Uses, lo: nat, hi: nat) {
    forall f :: f in uses ==> lo <= f < hi && uses[f] != {}
  }

  /** Reference counts are numbers of uses. */
  ghost predicate Counted(refs: map<nat, nat>, uses: Uses) {
    refs.Keys == uses.Keys && forall f :: f in uses ==> refs[f] == |uses[f]|
  }

  /** The free list is exactly the unused frames, without repeats. */
  ghost predicate FreeList(free: seq<nat>, uses: Uses, lo: nat, hi: nat) {
    && (forall i, j :: 0 <= i < j < |free| ==> free[i] != free[j])
    && (forall f :: f in free <==> lo <= f < hi && f !in uses)
  }

  ghost predicate Tables(m: Memory, spaces: set<nat>, uses: Uses, gone: set<Use>, lo: nat) {
    Paged(m) && Recorded(m, spaces, uses, gone) && Exclusive(m, uses) && Managed(uses, lo, |m|)
  }

  lemma UseRecorded(m: Memory, spaces: set<nat>, uses: Uses, gone: set<Use>, u: Use)
    requires Recorded(m, spaces, uses, gone) && ValidUse(u) && u.pd in spaces && u !in gone && Frame(m, u) >= 0
    ensures Frame(m, u) in uses && u in uses[Frame(m, u)]
  {
  }

  // ---- what an entry depends on ----

  lemma FrameDepends(m: Memory, m': Memory, u: Use)
    requires ValidUse(u) && |m'| == |m| && (0 <= u.pd < |m| ==> m'[u.pd] == m[u.pd])
    requires u.Map? && 0 <= Table(m, u.pd, u.di) < |m| ==> m'[Table(m, u.pd, u.di)] == m[Table(m, u.pd, u.di)]
    ensures Frame(m', u) == Frame(m, u)
    ensures u.Map? ==> Pte(m', u.pd, u.di, u.ti) == Pte(m, u.pd, u.di, u.ti)
  {
  }

  /** A page only mapped, or not in use, is no directory or table. */
  lemma NotATable(m: Memory, spaces: set<nat>, uses: Uses, gone: set<Use>, lo: nat, f: nat, u: Use)
    requires Tables(m, spaces, uses, gone, lo) && ValidUse(u) && u.pd in spaces && Dir(u.pd) !in gone
    requires u.Map? ==> Tab(u.pd, u.di) !in gone
    requires f in uses ==> forall v :: v in uses[f] ==> v.Map?
    ensures u.pd != f && (u.Map? ==> Table(m, u.pd, u.di) != f)
  {
    UseRecorded(m, spaces, uses, gone, Dir(u.pd));
    if u.Map? && Table(m, u.pd, u.di) >= 0 {
      UseRecorded(m, spaces, uses, gone, Tab(u.pd, u.di));
      assert Frame(m, Tab(u.pd, u.di)) == Table(m, u.pd, u.di);
    }
    assert Frame(m, Dir(u.pd)) == u.pd;
  }

  /** Changing such a page changes no mapping. */
  lemma DataFrames(m: Memory, m': Memory, spaces: set<nat>, uses: Uses, lo: nat, f: nat, u: Use)
    requires Tables(m, spaces, uses, {}, lo) && ValidUse(u) && u.pd in spaces && |m'| == |m|
    requires f in uses ==> forall v :: v in uses[f] ==> v.Map?
    requires forall g :: 0 <= g < |m| && g != f ==> m'[g] == m[g]
    ensures Frame(m', u) == Frame(m, u) && (u.Map? ==> Pte(m', u.pd, u.di, u.ti) == Pte(m, u.pd, u.di, u.ti))
  {
    NotATable(m, spaces, uses, {}, lo, f, u);
    FrameDepends(m, m', u);
  }

  /** Mappings, and with them all the records, are kept. */
  lemma SameFrames(m: Memory, m': Memory, spaces: set<nat>, uses: Uses, gone: set<Use>, lo: nat)
    requires Tables(m, spaces, uses, gone, lo) && |m'| == |m| && Paged(m')
    requires forall u :: ValidUse(u) && u.pd in spaces ==>
      Frame(m', u) == Frame(m, u)
        && (u.Map? && Writable(Pte(m', u.pd, u.di, u.ti)) ==> Writable(Pte(m, u.pd, u.di, u.ti)))
    ensures Tables(m', spaces, uses, gone, lo)
  {
    forall u | ValidUse(u) && u.pd in spaces && u !in gone && Frame(m', u) >= 0
      ensures Frame(m', u) in uses && u in uses[Frame(m', u)]
    {
      UseRecorded(m, spaces, uses, gone, u);
    }
  }

  // ---- records ----

  function Add(uses: Uses, f: nat, u: Use): Uses {
    uses[f := (if f in uses then uses[f] else {}) + {u}]
  }

  function Drop(uses: Uses, f: nat, u: Use): Uses
    requires f in uses
  {
    if uses[f] == {u} then uses - {f} else uses[f := uses[f] - {u}]
  }

  /** All the uses but those of one space. */
  ghost function Strip(uses: Uses, pd: nat): Uses {
    map f | f in uses && OfOthers(uses[f], pd) != {} :: OfOthers(uses[f], pd)
  }

  ghost function OfOthers(us: set<Use>, pd: nat): set<Use> {
    set u | u in us && u.pd != pd
  }

  lemma CountedAdd(refs: map<nat, nat>, uses: Uses, f: nat, u: Use)
    requires Counted(refs, uses) && (f in uses ==> u !in uses[f])
    ensures Counted(refs[f := (if f in refs then refs[f] else 0) + 1], Add(uses, f, u))
  {
  }

  lemma CountedDrop(refs: map<nat, nat>, uses: Uses, f: nat, u: Use)
    requires Counted(refs, uses) && f in uses && u in uses[f]
    ensures f in refs && refs[f] >= 1
    ensures refs[f] == 1 ==> uses[f] == {u} && Counted(refs - {f}, Drop(uses, f, u))
    ensures refs[f] > 1 ==> uses[f] != {u} && Counted(refs[f := refs[f] - 1], Drop(uses, f, u))
  {
    assert |uses[f] - {u}| == |uses[f]| - 1;
    if refs[f] == 1 {
      assert |uses[f] - {u}| == 0;
      assert uses[f] - {u} == {};
      assert uses[f] == {u};
    }
  }

  lemma TakeFree(free: seq<nat>, uses: Uses, lo: nat, hi: nat, us: set<Use>)
    requires FreeList(free, uses, lo, hi) && |free| > 0
    ensures var f := free[|free| - 1];
      lo <= f < hi && f !in uses && FreeList(free[..|free| - 1], uses[f := us], lo, hi)
  {
    var f, rest := free[|free| - 1], free[..|free| - 1];
    assert f in free;
    forall g ensures g in rest <==> lo <= g < hi && g !in uses[f := us] {
      if g in free {
        var i :| 0 <= i < |free| && free[i] == g;
        if g != f { assert rest[i] == g; }
      }
      if g in rest { assert g in free; }
    }
  }

  lemma GiveFree(free: seq<nat>, uses: Uses, lo: nat, hi: nat, f: nat)
    requires FreeList(free, uses, lo, hi) && f in uses && lo <= f < hi
    ensures FreeList(free + [f], uses - {f}, lo, hi)
  {
    var more := free + [f];
    forall g ensures g in more <==> lo <= g < hi && g !in uses - {f} {
      assert g in more <==> g in free || g == f;
    }
  }

  lemma FreeSame(free: seq<nat>, uses: Uses, uses': Uses, lo: nat, hi: nat)
    requires FreeList(free, uses, lo, hi) && uses'.Keys == uses.Keys
    ensures FreeList(free, uses', lo, hi)
  {
  }

  // ---- writing an entry of a page table ----

  ghost predicate WordSet(m: Memory, m': Memory, f: nat, i: nat, w: u32) {
    && i < 1024 && |m'| == |m| && 0 <= f < |m| && |m[f]| == 4096 && m'[f] == Write32(m[f], 4 * i, w)
    && forall g :: 0 <= g < |m| && g != f ==> m'[g] == m[g]
  }

  lemma WordAfter(m: Memory, m': Memory, f: nat, i: nat, w: u32, g: int, j: nat)
    requires WordSet(m, m', f, i, w) && j < 1024
    ensures Word(m', g, j) == if g == f && j == i then w else Word(m, g, j)
  {
    WriteRead(m[f], 4 * i, w);
    if g == f && j != i {
      assert 4 * j + 4 <= 4 * i || 4 * i + 4 <= 4 * j;
    }
  }

  /** Only the entry written changes. */
  lemma PteWritten(m: Memory, m': Memory, spaces: set<nat>, uses: Uses, lo: nat, pd: nat, di: nat, ti: nat, w: u32,
                   u: Use)
    requires Tables(m, spaces, uses, {}, lo) && pd in spaces && di < 1024 && ti < 1024 && Table(m, pd, di) >= 0
    requires WordSet(m, m', Table(m, pd, di), ti, w) && ValidUse(u) && u.pd in spaces
    ensures !u.Dir? ==> Table(m', u.pd, u.di) == Table(m, u.pd, u.di)
    ensures u.Map? ==> Pte(m', u.pd, u.di, u.ti) == if u == Map(pd, di, ti) then w else Pte(m, u.pd, u.di, u.ti)
  {
    var t := Table(m, pd, di);
    assert Frame(m, Tab(pd, di)) == t && Frame(m, Dir(u.pd)) == u.pd;
    UseRecorded(m, spaces, uses, {}, Tab(pd, di));
    UseRecorded(m, spaces, uses, {}, Dir(u.pd));
    if !u.Dir? {
      WordAfter(m, m', t, ti, w, u.pd, u.di);
      if u.Map? {
        if Table(m, u.pd, u.di) == t {
          assert Frame(m, Tab(u.pd, u.di)) == t;
          UseRecorded(m, spaces, uses, {}, Tab(u.pd, u.di));
        }
        WordAfter(m, m', t, ti, w, Table(m, u.pd, u.di), u.ti);
      }
    }
  }

  lemma PteFrames(m: Memory, m': Memory, spaces: set<nat>, uses: Uses, lo: nat, pd: nat, di: nat, ti: nat, w: u32)
    requires Tables(m, spaces, uses, {}, lo) && pd in spaces && di < 1024 && ti < 1024 && Table(m, pd, di) >= 0
    requires WordSet(m, m', Table(m, pd, di), ti, w)
    ensures forall u :: ValidUse(u) && u.pd in spaces && u != Map(pd, di, ti) ==>
      Frame(m', u) == Frame(m, u) && (u.Map? ==> Pte(m', u.pd, u.di, u.ti) == Pte(m, u.pd, u.di, u.ti))
    ensures Pte(m', pd, di, ti) == w && Paged(m')
  {
    forall u | ValidUse(u) && u.pd in spaces && u != Map(pd, di, ti)
      ensures Frame(m', u) == Frame(m, u) && (u.Map? ==> Pte(m', u.pd, u.di, u.ti) == Pte(m, u.pd, u.di, u.ti))
    {
      PteWritten(m, m', spaces, uses, lo, pd, di, ti, w, u);
    }
    PteWritten(m, m', spaces, uses, lo, pd, di, ti, w, Map(pd, di, ti));
  }

  /** The entry keeps its frame: permissions change, nothing else. */
  lemma PteFlags(m: Memory, m': Memory, spaces: set<nat>, uses: Uses, lo: nat, pd: nat, di: nat, ti: nat, w: u32)
    requires Tables(m, spaces, uses, {}, lo) && pd in spaces && di < 1024 && ti < 1024 && Table(m, pd, di) >= 0
    requires WordSet(m, m', Table(m, pd, di), ti, w) && FrameOf(w) == FrameOf(Pte(m, pd, di, ti)) >= 0
    requires FrameOf(w) in uses && (Writable(w) ==> uses[FrameOf(w)] == {Map(pd, di, ti)})
    ensures Tables(m', spaces, uses, {}, lo)
  {
    var u := Map(pd, di, ti);
    PteFrames(m, m', spaces, uses, lo, pd, di, ti, w);
    assert Frame(m', u) == Frame(m, u);
    forall v | ValidUse(v) && v.pd in spaces && Frame(m', v) >= 0
      ensures Frame(m', v) in uses && v in uses[Frame(m', v)]
    {
      UseRecorded(m, spaces, uses, {}, v);
    }
    forall f, v | f in uses && v in uses[f] ensures ValidUse(v) && v.pd in spaces && Frame(m', v) == f {
      assert Frame(m, v) == f;
    }
    forall f, v | f in uses && v in uses[f] && ValidUse(v) && (!v.Map? || MayWrite(m', v)) ensures uses[f] == {v} {
      if v != u { assert !v.Map? || MayWrite(m, v); }
    }
  }

  /** An empty entry is given a frame that is fresh, or shared by mappings none of which may write. */
  lemma PteMapped(m: Memory, m': Memory, spaces: set<nat>, uses: Uses, lo: nat, pd: nat, di: nat, ti: nat, w: u32,
                  f: nat)
    requires Tables(m, spaces, uses, {}, lo) && pd in spaces && di < 1024 && ti < 1024 && Table(m, pd, di) >= 0
    requires WordSet(m, m', Table(m, pd, di), ti, w) && FrameOf(Pte(m, pd, di, ti)) == -1
    requires FrameOf(w) == f && lo <= f < |m|
    requires f in uses ==> !Writable(w) && forall v :: v in uses[f] ==> v.Map? && !MayWrite(m, v)
    ensures Tables(m', spaces, Add(uses, f, Map(pd, di, ti)), {}, lo)
    ensures f in uses ==> Map(pd, di, ti) !in uses[f]
  {
    var u := Map(pd, di, ti);
    var uses' := Add(uses, f, u);
    PteFrames(m, m', spaces, uses, lo, pd, di, ti, w);
    forall v | ValidUse(v) && v.pd in spaces && Frame(m', v) >= 0
      ensures Frame(m', v) in uses' && v in uses'[Frame(m', v)]
    {
      if v != u { UseRecorded(m, spaces, uses, {}, v); }
    }
    forall g, v | g in uses' && v in uses'[g] ensures ValidUse(v) && v.pd in spaces && Frame(m', v) == g {
      if v != u { assert g in uses && v in uses[g]; }
    }
    forall g, v | g in uses' && v in uses'[g] && ValidUse(v) && (!v.Map? || MayWrite(m', v)) ensures uses'[g] == {v} {
      if v == u {
        assert g == f;
      } else {
        assert g in uses && v in uses[g] && (!v.Map? || MayWrite(m, v));
      }
    }
  }

  /** The entry moves from one frame to a fresh one. */
  lemma PteMoved(m: Memory, m': Memory, spaces: set<nat>, uses: Uses, lo: nat, pd: nat, di: nat, ti: nat, w: u32,
                 f: nat, g: nat)
    requires Tables(m, spaces, uses, {}, lo) && pd in spaces && di < 1024 && ti < 1024 && Table(m, pd, di) >= 0
    requires WordSet(m, m', Table(m, pd, di), ti, w) && FrameOf(Pte(m, pd, di, ti)) == f && FrameOf(w) == g
    requires lo <= g < |m| && g !in uses && f in uses
    ensures Map(pd, di, ti) in uses[f]
      && Tables(m', spaces, Drop(uses, f, Map(pd, di, ti))[g := {Map(pd, di, ti)}], {}, lo)
  {
    var u := Map(pd, di, ti);
    PteFrames(m, m', spaces, uses, lo, pd, di, ti, w);
    assert Frame(m, u) == f && Frame(m', u) == g;
    UseRecorded(m, spaces, uses, {}, u);
    MovedRecords(m, m', spaces, uses, u, f, g);
    MovedManaged(uses, lo, |m|, f, g, u);
  }

  lemma MovedRecords(m: Memory, m': Memory, spaces: set<nat>, uses: Uses, u: Use, f: nat, g: nat)
    requires Recorded(m, spaces, uses, {}) && Exclusive(m, uses) && u.Map? && ValidUse(u) && u.pd in spaces
    requires f in uses && u in uses[f] && g !in uses && Frame(m, u) == f && Frame(m', u) == g
    requires forall v :: ValidUse(v) && v.pd in spaces && v != u ==>
      Frame(m', v) == Frame(m, v) && (v.Map? ==> Pte(m', v.pd, v.di, v.ti) == Pte(m, v.pd, v.di, v.ti))
    ensures Recorded(m', spaces, Drop(uses, f, u)[g := {u}], {}) && Exclusive(m', Drop(uses, f, u)[g := {u}])
  {
    var uses' := Drop(uses, f, u)[g := {u}];
    forall v | ValidUse(v) && v.pd in spaces && Frame(m', v) >= 0
      ensures Frame(m', v) in uses' && v in uses'[Frame(m', v)]
    {
      if v != u { UseRecorded(m, spaces, uses, {}, v); }
    }
    forall h, v | h in uses' && v in uses'[h]
      ensures ValidUse(v) && v.pd in spaces && Frame(m', v) == h && (!v.Map? || MayWrite(m', v) ==> uses'[h] == {v})
    {
      if h != g { MovedOther(m, spaces, uses, u, f, h, v); }
    }
  }

  lemma MovedOther(m: Memory, spaces: set<nat>, uses: Uses, u: Use, f: nat, h: nat, v: Use)
    requires Recorded(m, spaces, uses, {}) && Exclusive(m, uses) && f in uses && u in uses[f] && Frame(m, u) == f
    requires ValidUse(u) && h in Drop(uses, f, u) && v in Drop(uses, f, u)[h]
    ensures h in uses && v in uses[h] && v != u && ValidUse(v) && v.pd in spaces && Frame(m, v) == h
    ensures !v.Map? || MayWrite(m, v) ==> uses[h] == {v} && Drop(uses, f, u)[h] == {v}
  {
    assert Frame(m, v) == h;
  }

  lemma MovedManaged(uses: Uses, lo: nat, hi: nat, f: nat, g: nat, u: Use)
    requires Managed(uses, lo, hi) && f in uses && u in uses[f] && lo <= g < hi
    ensures Managed(Drop(uses, f, u)[g := {u}], lo, hi) && Managed(Drop(uses, f, u), lo, hi)
  {
    if uses[f] != {u} {
      var v :| v in uses[f] && v != u;
      assert v in uses[f] - {u};
    }
  }

  // ---- a new table, a new space ----

  ghost predicate ZeroPage(m: Memory, f: nat) {
    f < |m| && |m[f]| == 4096 && forall i :: 0 <= i < 4096 ==> m[f][i] == 0
  }

  lemma ZeroWords(m: Memory, f: nat, i: nat)
    requires ZeroPage(m, f) && i < 1024
    ensures Word(m, f, i) == 0 && FrameOf(0) == -1
  {
  }

  /** A zeroed page becomes the table of an empty directory entry: nothing new is mapped. */
  lemma TableAdded(m: Memory, m': Memory, spaces: set<nat>, uses: Uses, lo: nat, pd: nat, di: nat, w: u32, t: nat,
                   u: Use)
    requires Tables(m, spaces, uses, {}, lo) && pd in spaces && di < 1024 && Table(m, pd, di) == -1
    requires WordSet(m, m', pd, di, w) && FrameOf(w) == t && t !in uses && ZeroPage(m, t)
    requires ValidUse(u) && u.pd in spaces
    ensures Frame(m', u) == if u == Tab(pd, di) then t else Frame(m, u)
    ensures u.Map? ==> Pte(m', u.pd, u.di, u.ti) == Pte(m, u.pd, u.di, u.ti)
    ensures Table(m', pd, di) == t != pd
  {
    UseRecorded(m, spaces, uses, {}, Dir(pd));
    assert Frame(m, Dir(pd)) == pd;
    WordAfter(m, m', pd, di, w, pd, di);
    if !u.Dir? {
      WordAfter(m, m', pd, di, w, u.pd, u.di);
      if u.Map? {
        if u.pd == pd && u.di == di {
          WordAfter(m, m', pd, di, w, t, u.ti);
          ZeroWords(m, t, u.ti);
        } else {
          TableElsewhere(m, spaces, uses, lo, pd, u.pd, u.di);
          WordAfter(m, m', pd, di, w, Table(m, u.pd, u.di), u.ti);
        }
      }
    }
  }

  lemma TableElsewhere(m: Memory, spaces: set<nat>, uses: Uses, lo: nat, pd: nat, pd': nat, di': nat)
    requires Tables(m, spaces, uses, {}, lo) && pd in spaces && pd' in spaces && di' < 1024
    ensures Table(m, pd', di') != pd
  {
    UseRecorded(m, spaces, uses, {}, Dir(pd));
    assert Frame(m, Dir(pd)) == pd;
    if Table(m, pd', di') >= 0 {
      assert Frame(m, Tab(pd', di')) == Table(m, pd', di');
      UseRecorded(m, spaces, uses, {}, Tab(pd', di'));
    }
  }

  lemma TableRecorded(m: Memory, m': Memory, spaces: set<nat>, uses: Uses, lo: nat, pd: nat, di: nat, w: u32, t: nat)
    requires Tables(m, spaces, uses, {}, lo) && pd in spaces && di < 1024 && Table(m, pd, di) == -1
    requires WordSet(m, m', pd, di, w) && FrameOf(w) == t && lo <= t && t !in uses && ZeroPage(m, t)
    ensures Tables(m', spaces, uses[t := {Tab(pd, di)}], {}, lo)
    ensures forall u :: ValidUse(u) && u.pd in spaces && u != Tab(pd, di) ==>
      Frame(m', u) == Frame(m, u) && (u.Map? ==> Pte(m', u.pd, u.di, u.ti) == Pte(m, u.pd, u.di, u.ti))
    ensures Table(m', pd, di) == t
  {
    var n := Tab(pd, di);
    var uses' := uses[t := {n}];
    forall u | ValidUse(u) && u.pd in spaces
      ensures Frame(m', u) == if u == n then t else Frame(m, u)
      ensures u.Map? ==> Pte(m', u.pd, u.di, u.ti) == Pte(m, u.pd, u.di, u.ti)
    {
      TableAdded(m, m', spaces, uses, lo, pd, di, w, t, u);
    }
    TableAdded(m, m', spaces, uses, lo, pd, di, w, t, n);
    forall u | ValidUse(u) && u.pd in spaces && Frame(m', u) >= 0
      ensures Frame(m', u) in uses' && u in uses'[Frame(m', u)]
    {
      if u != n { UseRecorded(m, spaces, uses, {}, u); }
    }
    forall f, u | f in uses' && u in uses'[f] ensures ValidUse(u) && u.pd in spaces && Frame(m', u) == f {
      if f != t { assert f in uses && u in uses[f] && Frame(m, u) == f; assert u != n; }
    }
    forall f, u | f in uses' && u in uses'[f] && ValidUse(u) && (!u.Map? || MayWrite(m', u)) ensures uses'[f] == {u} {
      if f != t { assert f in uses && u in uses[f] && (!u.Map? || MayWrite(m, u)); }
    }
  }

  /** A zeroed page becomes a directory: an address space with nothing mapped. */
  lemma SpaceAdded(m: Memory, spaces: set<nat>, uses: Uses, lo: nat, pd: nat)
    requires Tables(m, spaces, uses, {}, lo) && lo <= pd && pd !in uses && ZeroPage(m, pd)
    ensures pd !in spaces && Tables(m, spaces + {pd}, uses[pd := {Dir(pd)}], {}, lo)
    ensures forall u :: ValidUse(u) && u.pd == pd && !u.Dir? ==> Frame(m, u) == -1
  {
    assert pd !in spaces by {
      if pd in spaces { assert false; }
    }
    var uses' := uses[pd := {Dir(pd)}];
    forall u | ValidUse(u) && u.pd == pd && !u.Dir? ensures Frame(m, u) == -1 {
      ZeroWords(m, pd, u.di);
    }
    forall u | ValidUse(u) && u.pd in spaces + {pd} && Frame(m, u) >= 0
      ensures Frame(m, u) in uses' && u in uses'[Frame(m, u)]
    {
      if u.pd != pd { UseRecorded(m, spaces, uses, {}, u); }
    }
  }

  // ---- giving up a use ----

  lemma UseDropped(m: Memory, spaces: set<nat>, uses: Uses, gone: set<Use>, lo: nat, u: Use, f: nat)
    requires Tables(m, spaces, uses, gone, lo) && f in uses && u in uses[f]
    ensures Tables(m, spaces, Drop(uses, f, u), gone + {u}, lo)
  {
    var uses' := Drop(uses, f, u);
    assert Frame(m, u) == f;
    forall v | ValidUse(v) && v.pd in spaces && v !in gone + {u} && Frame(m, v) >= 0
      ensures Frame(m, v) in uses' && v in uses'[Frame(m, v)]
    {
      UseRecorded(m, spaces, uses, gone, v);
    }
    forall g, v | g in uses' && v in uses'[g]
      ensures ValidUse(v) && v.pd in spaces && v !in gone + {u} && Frame(m, v) == g
    {
      assert g in uses && v in uses[g] && Frame(m, v) == g;
    }
    MovedManaged(uses, lo, |m|, f, f, u);
    forall g, v | g in uses' && v in uses'[g] && ValidUse(v) && (!v.Map? || MayWrite(m, v)) ensures uses'[g] == {v} {
      assert g in uses && v in uses[g];
      assert uses[g] == {v};
    }
  }

  /** Once all of a space's uses are given up, it is gone. */
  lemma SpaceGone(m: Memory, spaces: set<nat>, uses: Uses, gone: set<Use>, lo: nat, pd: nat)
    requires Tables(m, spaces, uses, gone, lo) && pd in spaces
    requires forall u :: u in gone ==> u.pd == pd
    requires forall u :: ValidUse(u) && u.pd == pd && Frame(m, u) >= 0 ==> u in gone
    ensures Tables(m, spaces - {pd}, uses, {}, lo)
  {
    forall f, u | f in uses && u in uses[f] ensures u.pd != pd {
      assert Frame(m, u) == f;
    }
  }
}
