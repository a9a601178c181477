/** Runs of the v2 memory manager: processes that fork, write, load programs and exit, against a map from
    each process to a flat memory of its own. */
module VmmRuns {
  import opened Bytes
  import opened Words
  import opened Paging
  import opened PagingViews
  import opened PageRights
  import opened Vmm

  const SIZE := 0x1_0000_0000

  /** What a process has at an address: a byte, or -1 where nothing is mapped, and what it may do there. */
  datatype Cell = Cell(value: int, right: Right)

  type Flat = s: seq<Cell> | |s| == SIZE witness seq(SIZE, i => Cell(-1, NoRight))

  function Nothing(): Flat { seq(SIZE, i => Cell(-1, NoRight)) }

  /** Bytes written from an address on, around the end. */
  function Over(s: Flat, v: nat, data: seq<u8>): Flat { seq(SIZE, a requires 0 <= a < SIZE => OverAt(s, v, data, a)) }

  function OverAt(s: Flat, v: nat, data: seq<u8>, a: nat): Cell
    requires a < SIZE
  {
    var k := (a - v) % SIZE;
    if k < |data| then s[a].(value := data[k]) else s[a]
  }

  /** How many of n bytes can be written from v on. */
  function Room(s: Flat, v: nat, n: nat): (k: nat)
    ensures k <= n
    decreases n
  {
    if n == 0 || s[v % SIZE].right != ReadWrite then 0 else 1 + Room(s, v + 1, n - 1)
  }

  /** What a fork makes of a memory, for parent and child alike. */
  function Fork(s: Flat): Flat { seq(SIZE, a requires 0 <= a < SIZE => s[a].(right := Forked(s[a].right))) }

  /** A fork leaves a process's memory as it was exactly when nothing in it is read only. */
  lemma ForkKeeps(s: Flat)
    ensures Fork(s) == s <==> forall a :: 0 <= a < SIZE ==> s[a].right != ReadOnly
  {
    forall a | 0 <= a < SIZE ensures Fork(s)[a] == s[a] <==> s[a].right != ReadOnly {}
    if Fork(s) != s {
      var a :| 0 <= a < SIZE && Fork(s)[a] != s[a];
    }
  }

  lemma RoomOne(s: Flat, v: nat)
    ensures Room(s, v, 1) == if s[v % SIZE].right == ReadWrite then 1 else 0
  {
    assert Room(s, v + 1, 0) == 0;
  }

  lemma OverOne(s: Flat, v: nat, b: u8)
    ensures Over(s, v, [b])[v % SIZE] == s[v % SIZE].(value := b)
  {
    var a := v % SIZE;
    AwayWraps(a, v, 0);
  }

  /** What was read only can be written after a fork. */
  lemma ForkOpens(s: Flat, v: nat, b: u8)
    requires s[v % SIZE].right == ReadOnly
    ensures Over(s, v, [b][..Room(s, v, 1)]) == s
    ensures Over(Fork(s), v, [b][..Room(Fork(s), v, 1)])[v % SIZE] == Cell(b, ReadWrite)
  {
    RoomOne(s, v);
    RoomOne(Fork(s), v);
    OverNothing(s, v);
    OverOne(Fork(s), v, b);
    assert [b][..0] == [] && [b][..1] == [b];
  }

  /** A part of a program: it takes whole pages from its address on, with zeros after its data. A page of the
      stack is one without data. */
  datatype Segment = Segment(v: nat, data: seq<u8>, size: nat, flags: nat)

  function Pages(g: Segment): seq<u8> { Image(g.data, Round(g.size, |g.data|)) }

  function Put(s: Flat, g: Segment): Flat { seq(SIZE, a requires 0 <= a < SIZE => PutAt(s, g, a)) }

  function PutAt(s: Flat, g: Segment, a: nat): Cell
    requires a < SIZE
  {
    var k := (a - g.v) % SIZE;
    if k < |Pages(g)| then Cell(Pages(g)[k], Granted(g.flags)) else s[a]
  }

  /** A program's memory: its segments, and nothing else. */
  function Loaded(segs: seq<Segment>): Flat {
    if segs == [] then Nothing() else Put(Loaded(segs[..|segs| - 1]), segs[|segs| - 1])
  }

  /** The segments have 32-bit sizes and no page in common. */
  ghost predicate Loadable(segs: seq<Segment>) {
    forall i :: 0 <= i < |segs| ==> Fits(Loaded(segs[..i]), segs[i])
  }

  ghost predicate Fits(s: Flat, g: Segment) {
    && g.size <= SIZE && |g.data| <= SIZE
    && forall a :: g.v <= a < g.v + |Pages(g)| ==> s[a % SIZE].value == -1
  }

  // ---- what a program's memory is, byte by byte ----

  /** Byte n of a segment stands at an address of the page of a. */
  predicate Reaches(g: Segment, n: int, a: nat) {
    0 <= n && (n < g.size || n < |g.data|) && (g.v + n) % SIZE / 4096 == a / 4096
  }

  ghost predicate OnPage(g: Segment, a: nat) { exists n :: Reaches(g, n, a) }

  predicate StandsAt(g: Segment, n: nat, a: nat) { n < |g.data| && (g.v + n) % SIZE == a }

  /** What a segment makes of an address on one of its pages: its right, and its data or else zero. */
  ghost predicate Fills(g: Segment, a: nat, c: Cell) {
    && c.right == Granted(g.flags)
    && (forall n: nat :: StandsAt(g, n, a) ==> c.value == g.data[n])
    && (c.value == 0 || exists n: nat :: StandsAt(g, n, a))
  }

  /** An address is mapped exactly when some byte of some segment lies on its page. */
  ghost predicate Shows(segs: seq<Segment>, s: Flat) {
    forall a :: 0 <= a < SIZE ==> ShowsAt(segs, a, s[a])
  }

  ghost predicate ShowsAt(segs: seq<Segment>, a: nat, c: Cell) {
    && ((forall i :: 0 <= i < |segs| ==> !OnPage(segs[i], a)) ==> c == Cell(-1, NoRight))
    && forall i :: 0 <= i < |segs| && OnPage(segs[i], a) ==> Fills(segs[i], a, c)
  }

  /** A loaded program is its segments' bytes, on the pages that they lie on, and zeros. */
  lemma LoadedShows(segs: seq<Segment>)
    requires Loadable(segs) && Aligned(segs)
    ensures Shows(segs, Loaded(segs))
  {
    forall a: nat | a < SIZE ensures ShowsAt(segs, a, Loaded(segs)[a]) { LoadedAt(segs, a); }
  }

  lemma {:induction false} LoadedAt(segs: seq<Segment>, a: nat)
    requires Loadable(segs) && Aligned(segs) && a < SIZE
    ensures ShowsAt(segs, a, Loaded(segs)[a])
  {
    if segs != [] {
      var before, g := segs[..|segs| - 1], segs[|segs| - 1];
      LoadableBefore(segs);
      LoadedAt(before, a);
      PutShows(Loaded(before), g, a);
      ShowsMore(before, g, a, Loaded(before)[a], PutAt(Loaded(before), g, a));
      assert before + [g] == segs;
    }
  }

  lemma LoadableBefore(segs: seq<Segment>)
    requires segs != [] && Loadable(segs) && Aligned(segs)
    ensures var before, g := segs[..|segs| - 1], segs[|segs| - 1];
      Loadable(before) && Aligned(before) && PageStart(g) && Fits(Loaded(before), g)
  {
    var before := segs[..|segs| - 1];
    forall i | 0 <= i < |before| ensures Fits(Loaded(before[..i]), before[i]) && PageStart(before[i]) {
      assert before[i] == segs[i] && before[..i] == segs[..i];
    }
  }

  lemma ShowsMore(segs: seq<Segment>, g: Segment, a: nat, c: Cell, c': Cell)
    requires ShowsAt(segs, a, c) && if OnPage(g, a) then Fills(g, a, c') && c.value == -1 else c' == c
    ensures ShowsAt(segs + [g], a, c')
  {
    var more := segs + [g];
    forall i | 0 <= i < |more| && OnPage(more[i], a) ensures Fills(more[i], a, c') {
      if i < |segs| { assert more[i] == segs[i]; }
    }
    if forall i :: 0 <= i < |more| ==> !OnPage(more[i], a) {
      assert more[|segs|] == g;
      forall i | 0 <= i < |segs| ensures !OnPage(segs[i], a) { assert more[i] == segs[i]; }
    }
  }

  /** The pages of a segment are those its bytes lie on, and were free before. */
  lemma PutShows(s: Flat, g: Segment, a: nat)
    requires Fits(s, g) && PageStart(g) && a < SIZE
    ensures OnPage(g, a) ==> Fills(g, a, PutAt(s, g, a)) && s[a].value == -1
    ensures !OnPage(g, a) ==> PutAt(s, g, a) == s[a]
  {
    var k := (a - g.v) % SIZE;
    AwayWraps(a, g.v, k);
    if OnPage(g, a) { PageTaken(g, a, k); }
    if k < |Pages(g)| {
      PageReaches(g, a, k);
      PutFills(s, g, a, k);
    }
  }

  lemma PageReaches(g: Segment, a: nat, k: nat)
    requires PageStart(g) && k < |Pages(g)| && (g.v + k) % SIZE == a
    ensures OnPage(g, a)
  {
    PageBegins(k);
    SamePage(g.v, k / 4096 * 4096, k % 4096);
    assert Reaches(g, k / 4096 * 4096, a);
  }

  lemma PageTaken(g: Segment, a: nat, k: nat)
    requires PageStart(g) && g.size <= SIZE && |g.data| <= SIZE && a < SIZE && k < SIZE && (g.v + k) % SIZE == a
    requires OnPage(g, a)
    ensures k < |Pages(g)|
  {
    var n :| Reaches(g, n, a);
    PageReached(g.v, n, a, k, |Pages(g)|);
  }

  lemma PageBegins(k: nat)
    ensures k == k / 4096 * 4096 + k % 4096 && k / 4096 * 4096 % 4096 == 0
  {
  }

  lemma PutFills(s: Flat, g: Segment, a: nat, k: nat)
    requires Fits(s, g) && a < SIZE && k == (a - g.v) % SIZE < |Pages(g)| && (g.v + k) % SIZE == a
    ensures Fills(g, a, PutAt(s, g, a)) && s[a].value == -1
  {
    if k < |g.data| { assert StandsAt(g, k, a); }
    forall n: nat | StandsAt(g, n, a) ensures n == k { AwayWraps(a, g.v, n); }
  }

  /** A page does not cross the end of memory. */
  lemma SamePage(v: nat, n: nat, o: nat)
    requires v % 4096 == 0 && n % 4096 == 0 && o < 4096
    ensures (v + n) % SIZE % 4096 == 0 && (v + n + o) % SIZE == (v + n) % SIZE + o
    ensures (v + n + o) % SIZE / 4096 == (v + n) % SIZE / 4096
  {
    var x := v + n;
    var q, r := x / SIZE, x % SIZE;
    assert r % 4096 == 0;
    DivModUnique(x + o, q, r + o, SIZE);
  }

  /** Where one byte of an aligned segment lies on the page of a, the place of a in it is on that page too. */
  lemma PageReached(v: nat, n: nat, a: nat, k: nat, size: nat)
    requires v % 4096 == 0 && a < SIZE && k < SIZE && n < size <= SIZE && size % 4096 == 0
    requires (v + k) % SIZE == a && (v + n) % SIZE / 4096 == a / 4096
    ensures k < size
  {
    var base := n / 4096 * 4096;
    PageBegins(n);
    SamePage(v, base, n % 4096);
    SamePage(v, base, a % 4096);
    var y := base + a % 4096;
    assert (v + y) % SIZE == a;
    AwayWraps(a, v, y);
    AwayWraps(a, v, k);
  }

  // ---- what each step does to the flat memories ----

  ghost function View(m: Memory, pd: nat): Flat {
    seq(SIZE, a requires 0 <= a < SIZE => Cell(SeesAt(m, pd, a), RightAt(m, pd, DirIndex(a), TableIndex(a))))
  }

  lemma Wraps(m: Memory, pd: nat, a: nat)
    ensures View(m, pd)[a % SIZE] == Cell(SeesAt(m, pd, a), RightAt(m, pd, DirIndex(a), TableIndex(a)))
  {
    AddressIs(a);
    AddressUnique(DirIndex(a), TableIndex(a), Offset(a), a % SIZE);
  }

  lemma ViewSame(m: Memory, m': Memory, spaces: set<nat>, pd: nat)
    requires AllSee(m, m', spaces) && SameRights(m, m', spaces) && pd in spaces
    ensures View(m', pd) == View(m, pd)
  {
    assert SameView(m, pd, m', pd);
    forall a: nat | a < SIZE ensures View(m', pd)[a] == View(m, pd)[a] {
      assert Sees(m', pd, DirIndex(a), TableIndex(a), Offset(a)) == SeesAt(m', pd, a);
      assert RightAt(m', pd, DirIndex(a), TableIndex(a)) == RightAt(m, pd, DirIndex(a), TableIndex(a));
    }
  }

  lemma ViewForked(m: Memory, m': Memory, pd: nat, pd': nat)
    requires SameView(m, pd, m', pd')
    requires forall d, t {:trigger RightAt(m', pd', d, t)} :: 0 <= d < 1024 && 0 <= t < 1024 ==>
      RightAt(m', pd', d, t) == Forked(RightAt(m, pd, d, t))
    ensures View(m', pd') == Fork(View(m, pd))
  {
    forall a: nat | a < SIZE ensures View(m', pd')[a] == Fork(View(m, pd))[a] {
      assert Sees(m', pd', DirIndex(a), TableIndex(a), Offset(a)) == SeesAt(m', pd', a);
      assert RightAt(m', pd', DirIndex(a), TableIndex(a)) == Forked(RightAt(m, pd, DirIndex(a), TableIndex(a)));
    }
  }

  lemma ViewNew(m: Memory, pd: nat)
    requires Bare(m, pd) && forall u :: ValidUse(u) && u.pd == pd && !u.Dir? ==> Frame(m, u) == -1
    ensures View(m, pd) == Nothing()
  {
    forall a: nat | a < SIZE ensures View(m, pd)[a] == Cell(-1, NoRight) {
      assert Frame(m, Map(pd, DirIndex(a), TableIndex(a))) == -1;
      assert RightAt(m, pd, DirIndex(a), TableIndex(a)) == NoRight;
    }
  }

  // ---- writing ----

  lemma AwayFlat(a: nat, v: nat)
    requires a < SIZE
    ensures Away(DirIndex(a), TableIndex(a), Offset(a), v) == (a - v) % SIZE
  {
    AddressIs(a);
  }

  lemma BytesAt(m: Memory, m': Memory, spaces: set<nat>, pd: nat, v: nat, data: seq<u8>, n: nat, pd': nat, a: nat)
    requires n <= |data| && BytesSeen(m, m', spaces, pd, v, data, n) && pd' in spaces && a < SIZE
    ensures var k := (a - v) % SIZE; SeesAt(m', pd', a) == if pd' == pd && k < n then data[k] else SeesAt(m, pd', a)
  {
    AwayFlat(a, v);
    assert Sees(m', pd', DirIndex(a), TableIndex(a), Offset(a)) == SeesAt(m', pd', a);
  }

  lemma ViewWritten(m: Memory, m': Memory, spaces: set<nat>, pd: nat, v: nat, data: seq<u8>, n: nat)
    requires n <= |data| && Written(m, m', spaces, pd, v, data, n) && pd in spaces
    ensures View(m', pd) == Over(View(m, pd), v, data[..n])
  {
    forall a: nat | a < SIZE ensures View(m', pd)[a] == OverAt(View(m, pd), v, data[..n], a) {
      BytesAt(m, m', spaces, pd, v, data, n, pd, a);
      assert RightAt(m', pd, DirIndex(a), TableIndex(a)) == RightAt(m, pd, DirIndex(a), TableIndex(a));
    }
  }

  lemma ViewOther(m: Memory, m': Memory, spaces: set<nat>, pd: nat, v: nat, data: seq<u8>, n: nat, pd': nat)
    requires n <= |data| && Written(m, m', spaces, pd, v, data, n) && pd' in spaces && pd' != pd
    ensures View(m', pd') == View(m, pd')
  {
    forall a: nat | a < SIZE ensures View(m', pd')[a] == View(m, pd')[a] {
      BytesAt(m, m', spaces, pd, v, data, n, pd', a);
      assert RightAt(m', pd', DirIndex(a), TableIndex(a)) == RightAt(m, pd', DirIndex(a), TableIndex(a));
    }
  }

  /** One byte is a string of one. */
  lemma ByteWritten(m: Memory, m': Memory, spaces: set<nat>, pd: nat, v: nat, b: u8)
    requires ByteSeen(m, m', spaces, pd, v, b) && SameRights(m, m', spaces) && DirsOpen(m, m', spaces)
      && Reachable(m, pd, v, true)
    ensures Written(m, m', spaces, pd, v, [b], 1)
  {
    forall pd', di, ti, off | pd' in spaces && 0 <= di < 1024 && 0 <= ti < 1024 && 0 <= off < 4096
      ensures Sees(m', pd', di, ti, off) == if pd' == pd
        && Away(di, ti, off, v) < 1 then [b][Away(di, ti, off, v)] else Sees(m, pd', di, ti, off)
    {
      AwayIs(di, ti, off, v, 0);
    }
  }

  lemma ReachableIs(m: Memory, pd: nat, a: nat, write: bool)
    ensures Reachable(m, pd, a, write) <==> var r := View(m, pd)[a % SIZE].right;
      r == ReadWrite || (r == ReadOnly && !write)
  {
    Wraps(m, pd, a);
  }

  lemma {:induction false} RoomIs(s: Flat, v: nat, len: nat, n: nat)
    requires n <= len && (forall a :: v <= a < v + n ==> s[a % SIZE].right == ReadWrite)
    requires n < len ==> s[(v + n) % SIZE].right != ReadWrite
    ensures Room(s, v, len) == n
    decreases n
  {
    if n > 0 { RoomIs(s, v + 1, len - 1, n - 1); }
  }

  lemma RoomWritten(m: Memory, pd: nat, v: nat, len: nat, n: nat)
    requires n <= len && (forall a :: v <= a < v + n ==> Reachable(m, pd, a, true))
      && (n < len ==> !Reachable(m, pd, v + n, true))
    ensures Room(View(m, pd), v, len) == n
  {
    forall a | v <= a < v + n ensures View(m, pd)[a % SIZE].right == ReadWrite { ReachableIs(m, pd, a, true); }
    if n < len { ReachableIs(m, pd, v + n, true); }
    RoomIs(View(m, pd), v, len, n);
  }

  // ---- loading ----

  /** Within an aligned range, pages lie whole. */
  lemma AwayPage(di: nat, ti: nat, off: nat, v: nat)
    requires di < 1024 && ti < 1024 && off < 4096 && v % 4096 == 0
    ensures Away(di, ti, off, v) == Away(di, ti, 0, v) + off && Away(di, ti, 0, v) % 4096 == 0
  {
    var a := Address(di, ti, 0) - v;
    var q := a / SIZE;
    assert a == q * SIZE + a % SIZE;
    var h: int := di * 1024 + ti - v / 4096;
    assert a == 4096 * h;
    var r: int := h - q * 0x10_0000;
    assert a % SIZE == 4096 * r;
    DivModUnique(a + off, q, a % SIZE + off, SIZE);
  }

  lemma InRange(x: nat, off: nat, n: nat)
    requires x % 4096 == 0 && n % 4096 == 0 && off < 4096
    ensures x < n <==> x + off < n
  {
  }

  lemma ViewPut(m: Memory, m': Memory, spaces: set<nat>, pd: nat, g: Segment)
    requires var image := Pages(g); Laid(m, m', spaces, pd, g.v, image, |image|, Granted(g.flags))
    requires pd in spaces && Open(m, pd) && g.v % 4096 == 0
    ensures View(m', pd) == Put(View(m, pd), g)
  {
    forall a: nat | a < SIZE ensures View(m', pd)[a] == PutAt(View(m, pd), g, a) {
      PutPoint(m, m', spaces, pd, g, a);
    }
  }

  lemma PutPoint(m: Memory, m': Memory, spaces: set<nat>, pd: nat, g: Segment, a: nat)
    requires var image := Pages(g); Laid(m, m', spaces, pd, g.v, image, |image|, Granted(g.flags))
    requires pd in spaces && Open(m, pd) && g.v % 4096 == 0 && a < SIZE
    ensures View(m', pd)[a] == PutAt(View(m, pd), g, a)
  {
    var image := Pages(g);
    BytesAt(m, m', spaces, pd, g.v, image, |image|, pd, a);
    RightPoint(m, m', spaces, pd, g.v, |image|, Granted(g.flags), a);
  }

  lemma RightPoint(m: Memory, m': Memory, spaces: set<nat>, pd: nat, v: nat, n: nat, r: Right, a: nat)
    requires RangeRight(m, m', spaces, pd, v, n, r) && pd in spaces && Open(m, pd)
    requires v % 4096 == 0 && n % 4096 == 0 && a < SIZE
    ensures var di, ti := DirIndex(a), TableIndex(a);
      RightAt(m', pd, di, ti) == if (a - v) % SIZE < n then r else RightAt(m, pd, di, ti)
  {
    var di, ti := DirIndex(a), TableIndex(a);
    AwayFlat(a, v);
    AwayPage(di, ti, Offset(a), v);
    InRange(Away(di, ti, 0, v), Offset(a), n);
    RightThere(m, m', spaces, pd, v, n, r, di, ti);
  }

  lemma RightThere(m: Memory, m': Memory, spaces: set<nat>, pd: nat, v: nat, n: nat, r: Right, di: nat, ti: nat)
    requires RangeRight(m, m', spaces, pd, v, n, r) && pd in spaces && Open(m, pd) && di < 1024 && ti < 1024
    ensures RightAt(m', pd, di, ti) == if Away(di, ti, 0, v) < n then r else RightAt(m, pd, di, ti)
  {
  }

  lemma ViewBeside(m: Memory, m': Memory, spaces: set<nat>, pd: nat, g: Segment, pd': nat)
    requires var image := Pages(g); Laid(m, m', spaces, pd, g.v, image, |image|, Granted(g.flags))
    requires pd' in spaces && pd' != pd
    ensures View(m', pd') == View(m, pd')
  {
    forall a: nat | a < SIZE ensures View(m', pd')[a] == View(m, pd')[a] {
      BytesAt(m, m', spaces, pd, g.v, Pages(g), |Pages(g)|, pd', a);
      assert RightAt(m', pd', DirIndex(a), TableIndex(a)) == RightAt(m, pd', DirIndex(a), TableIndex(a));
    }
  }

  lemma StillFree(m: Memory, pd: nat, g: Segment)
    requires Fits(View(m, pd), g)
    ensures forall a :: g.v <= a < g.v + Round(g.size, |g.data|) ==> SeesAt(m, pd, a) == -1
  {
    forall a | g.v <= a < g.v + Round(g.size, |g.data|) ensures SeesAt(m, pd, a) == -1 { Wraps(m, pd, a); }
  }

  // ---- runs ----

  /** What processes do to memory. A user store that faults on a shared page is resolved and retried; exec is
      a load by a process that is there already. */
  datatype Event =
    | Forks(pid: nat, child: nat)
    | Stores(pid: nat, v: nat, b: u8)
    | CopiesOut(pid: nat, v: nat, data: seq<u8>)
    | Loads(pid: nat, segs: seq<Segment>)
    | Exits(pid: nat)

  /** Segments start on page boundaries; the loader refuses others. */
  predicate Aligned(segs: seq<Segment>) { AlignedTo(segs, |segs|) }

  predicate AlignedTo(segs: seq<Segment>, n: nat)
    requires n <= |segs|
  {
    forall i :: 0 <= i < n ==> PageStart(segs[i])
  }

  predicate PageStart(g: Segment) { g.v % 4096 == 0 }

  predicate Placed(e: Event) { e.Loads? ==> Aligned(e.segs) }

  ghost predicate Possible(s: map<nat, Flat>, e: Event) {
    match e
    case Forks(pid, child) => pid in s && child !in s
    case Stores(pid, v, b) => pid in s
    case CopiesOut(pid, v, data) => pid in s && |data| <= SIZE
    case Loads(pid, segs) => Loadable(segs)
    case Exits(pid) => pid in s
  }

  /** What an event does to private flat memories: a child gets what its parent has, and from then on each
      process changes its own memory only, as far as it may. */
  ghost function Effect(s: map<nat, Flat>, e: Event): map<nat, Flat>
    requires Possible(s, e)
  {
    match e
    case Forks(pid, child) => s[pid := Fork(s[pid])][child := Fork(s[pid])]
    case Stores(pid, v, b) => s[pid := Over(s[pid], v, [b][..Room(s[pid], v, 1)])]
    case CopiesOut(pid, v, data) => s[pid := Over(s[pid], v, data[..Room(s[pid], v, |data|)])]
    case Loads(pid, segs) => s[pid := Loaded(segs)]
    case Exits(pid) => s - {pid}
  }

  ghost predicate Legal(s: map<nat, Flat>, es: seq<Event>)
    decreases |es|
  {
    es == [] || (Possible(s, es[0]) && Legal(Effect(s, es[0]), es[1..]))
  }

  ghost function After(s: map<nat, Flat>, es: seq<Event>): map<nat, Flat>
    requires Legal(s, es)
    decreases |es|
  {
    if es == [] then s else After(Effect(s, es[0]), es[1..])
  }

  /** Each process has a space, and a different one. */
  ghost predicate Owned(pds: map<nat, nat>, spaces: set<nat>) {
    && (forall p, q :: p in pds && q in pds && p != q ==> pds[p] != pds[q])
    && (forall p :: p in pds ==> pds[p] in spaces)
    && (forall pd :: pd in spaces ==> exists p :: p in pds && pds[p] == pd)
  }

  ghost predicate AllOpen(m: Memory, spaces: set<nat>) { forall pd :: pd in spaces ==> Open(m, pd) }

  ghost function Views(m: Memory, pds: map<nat, nat>): map<nat, Flat> { map p | p in pds :: View(m, pds[p]) }

  lemma OpenAll(m: Memory, m': Memory, spaces: set<nat>)
    requires AllOpen(m, spaces) && DirsOpen(m, m', spaces)
    ensures AllOpen(m', spaces)
  {
    forall pd | pd in spaces ensures Open(m', pd) { OpenKept(m, m', spaces, pd); }
  }

  lemma OwnedMore(pds: map<nat, nat>, spaces: set<nat>, p: nat, pd: nat)
    requires Owned(pds, spaces) && p !in pds && pd !in spaces
    ensures Owned(pds[p := pd], spaces + {pd})
  {
    var pds' := pds[p := pd];
    forall x | x in spaces + {pd} ensures exists q :: q in pds' && pds'[q] == x {
      if x == pd { assert pds'[p] == x; } else { var q :| q in pds && pds[q] == x; assert pds'[q] == x; }
    }
  }

  lemma OwnedLess(pds: map<nat, nat>, spaces: set<nat>, p: nat)
    requires Owned(pds, spaces) && p in pds
    ensures Owned(pds - {p}, spaces - {pds[p]})
  {
    forall x | x in spaces - {pds[p]} ensures exists q :: q in pds - {p} && (pds - {p})[q] == x {
      var q :| q in pds && pds[q] == x;
      assert (pds - {p})[q] == x;
    }
  }

  lemma ViewsWritten(m: Memory, m': Memory, spaces: set<nat>, pds: map<nat, nat>, p: nat, v: nat, data: seq<u8>, n: nat)
    requires Owned(pds, spaces) && p in pds && n <= |data| && Written(m, m', spaces, pds[p], v, data, n)
    ensures Views(m', pds) == Views(m, pds)[p := Over(Views(m, pds)[p], v, data[..n])]
  {
    forall q | q in pds
      ensures View(m', pds[q]) == if q == p then Over(View(m, pds[p]), v, data[..n]) else View(m, pds[q])
    {
      if q == p { ViewWritten(m, m', spaces, pds[p], v, data, n); } else {
        ViewOther(m, m', spaces, pds[p], v, data, n, pds[q]);
      }
    }
  }

  lemma ViewsSame(m: Memory, m': Memory, spaces: set<nat>, pds: map<nat, nat>)
    requires AllSee(m, m', spaces) && SameRights(m, m', spaces) && forall p :: p in pds ==> pds[p] in spaces
    ensures Views(m', pds) == Views(m, pds)
  {
    forall p | p in pds ensures View(m', pds[p]) == View(m, pds[p]) { ViewSame(m, m', spaces, pds[p]); }
  }

  lemma ViewsForked(m: Memory, m': Memory, spaces: set<nat>, pds: map<nat, nat>, p: nat, c: nat, dst: nat)
    requires Owned(pds, spaces) && p in pds && c !in pds && dst !in spaces
    requires AllSee(m, m', spaces) && SameView(m, pds[p], m', dst) && ClonedRights(m, m', spaces, pds[p], dst, 1024, 0)
    ensures Views(m', pds[c := dst]) == Views(m, pds)[p := Fork(Views(m, pds)[p])][c := Fork(Views(m, pds)[p])]
  {
    var src := pds[p];
    assert SameView(m, src, m', src);
    ViewForked(m, m', src, src);
    ViewForked(m, m', src, dst);
    forall q | q in pds && q != p ensures View(m', pds[q]) == View(m, pds[q]) {
      assert SameRights(m, m', {pds[q]}) && AllSee(m, m', {pds[q]});
      ViewSame(m, m', {pds[q]}, pds[q]);
    }
  }

  lemma ViewsLoaded(m: Memory, m': Memory, pds: map<nat, nat>, p: nat, pd: nat)
    requires forall q :: q in pds ==> View(m', pds[q]) == View(m, pds[q])
    ensures Views(m', pds[p := pd]) == Views(m, pds)[p := View(m', pd)]
  {
  }

  lemma OverNothing(s: Flat, v: nat)
    ensures Over(s, v, []) == s
  {
  }

  class Processes {
    const vmm: Vmm
    var pds: map<nat, nat>

    constructor (vmm: Vmm)
      requires vmm.Valid() && vmm.spaces == {}
      ensures this.vmm == vmm && pds == map[] && Valid()
    {
      this.vmm, pds := vmm, map[];
    }

    ghost predicate Valid()
      reads this, vmm, vmm.pmm
    {
      vmm.Valid() && Owned(pds, vmm.spaces) && AllOpen(vmm.phys, vmm.spaces)
    }

    /** The flat memory of each process. */
    ghost function Seen(): map<nat, Flat>
      reads this, vmm
    {
      Views(vmm.phys, pds)
    }

    method ForkProcess(pid: nat, child: nat) returns (ok: bool)
      requires Valid() && pid in pds && child !in pds
      modifies this, vmm, vmm.pmm
      ensures ok ==> Valid() && Seen() == Effect(old(Seen()), Forks(pid, child))
      ensures !ok ==> |vmm.pmm.free| == 0
    {
      ghost var m, was := vmm.phys, vmm.spaces;
      var dst;
      ok, dst := vmm.CowCloneAddressSpace(pds[pid]);
      if !ok { return; }
      OpenAll(m, vmm.phys, was);
      ViewsForked(m, vmm.phys, was, pds, pid, child, dst);
      OwnedMore(pds, was, child, dst);
      pds := pds[child := dst];
    }

    /** A user store; found when it took effect. */
    method Store(pid: nat, v: nat, b: u8) returns (ok: bool, found: bool)
      requires Valid() && pid in pds
      modifies this, vmm, vmm.pmm
      ensures ok ==>
        Valid() && Seen() == Effect(old(Seen()), Stores(pid, v, b)) && (found <==> Room(old(Seen())[pid], v, 1) == 1)
      ensures !ok ==> |vmm.pmm.free| == 0
    {
      ghost var m := vmm.phys;
      ok, found := vmm.StoreByte(pds[pid], v, b);
      if !ok { return; }
      OpenAll(m, vmm.phys, vmm.spaces);
      RoomWritten(m, pds[pid], v, 1, if found then 1 else 0);
      if found {
        ByteWritten(m, vmm.phys, vmm.spaces, pds[pid], v, b);
        ViewsWritten(m, vmm.phys, vmm.spaces, pds, pid, v, [b], 1);
      } else {
        ViewsSame(m, vmm.phys, vmm.spaces, pds);
        OverNothing(Views(m, pds)[pid], v);
      }
    }

    /** The kernel writes to a process; n bytes were written. */
    method CopyOut(pid: nat, v: nat, data: seq<u8>) returns (ok: bool, n: nat)
      requires Valid() && pid in pds && |data| <= SIZE
      modifies this, vmm, vmm.pmm
      ensures ok ==>
        Valid() && Seen() == Effect(old(Seen()), CopiesOut(pid, v, data)) && n == Room(old(Seen())[pid], v, |data|)
      ensures !ok ==> |vmm.pmm.free| == 0
    {
      ghost var m := vmm.phys;
      ok, n := vmm.Copyout(pds[pid], v, data);
      if !ok { return; }
      OpenAll(m, vmm.phys, vmm.spaces);
      RoomWritten(m, pds[pid], v, |data|, n);
      ViewsWritten(m, vmm.phys, vmm.spaces, pds, pid, v, data, n);
    }

    /** The kernel reads from a process: what it gets is what the flat memory holds. */
    method CopyIn(pid: nat, v: nat, len: nat) returns (ok: bool, out: seq<u8>)
      requires Valid() && pid in pds
      ensures ok <==> forall a :: v <= a < v + len ==> Seen()[pid][a % SIZE].right != NoRight
      ensures ok ==> |out| == len && forall a :: v <= a < v + len ==> out[a - v] == Seen()[pid][a % SIZE].value
    {
      ok, out := vmm.Copyin(pds[pid], v, len);
      forall a | v <= a < v + len
        ensures Reachable(vmm.phys, pds[pid], a, false) <==> Seen()[pid][a % SIZE].right != NoRight
        ensures SeesAt(vmm.phys, pds[pid], a) == Seen()[pid][a % SIZE].value
      {
        ReachableIs(vmm.phys, pds[pid], a, false);
        Wraps(vmm.phys, pds[pid], a);
      }
    }

    method Exit(pid: nat)
      requires Valid() && pid in pds
      modifies this, vmm, vmm.pmm
      ensures Valid() && Seen() == Effect(old(Seen()), Exits(pid)) && pds == old(pds) - {pid}
    {
      vmm.FreeAddressSpace(pds[pid]);
      OwnedLess(pds, old(vmm.spaces), pid);
      pds := pds - {pid};
    }

    /** A space being filled with the first i segments of a program; no one else sees a change. */
    ghost predicate Filling(pd: nat, m: Memory, was: set<nat>, segs: seq<Segment>, i: nat)
      requires i <= |segs|
      reads vmm, vmm.pmm
    {
      && vmm.Valid() && pd !in was && vmm.spaces == was + {pd} && AllOpen(vmm.phys, vmm.spaces)
      && View(vmm.phys, pd) == Loaded(segs[..i]) && forall q :: q in was ==> View(vmm.phys, q) == View(m, q)
    }

    method LoadOne(pd: nat, ghost m: Memory, ghost was: set<nat>, segs: seq<Segment>, i: nat) returns (ok: bool)
      requires i < |segs| && Filling(pd, m, was, segs, i) && Fits(Loaded(segs[..i]), segs[i])
      modifies vmm, vmm.pmm
      ensures ok ==> Filling(pd, m, was, segs, i + 1)
      ensures !ok ==> !PageStart(segs[i]) || |vmm.pmm.free| == 0
      ensures ok ==> PageStart(segs[i])
    {
      ghost var m1 := vmm.phys;
      var g := segs[i];
      StillFree(m1, pd, g);
      ok := vmm.LoadSegment(pd, g.v, g.data, g.size, g.flags);
      if !ok { return; }
      OpenAll(m1, vmm.phys, vmm.spaces);
      assert segs[..i + 1][..i] == segs[..i];
      ViewPut(m1, vmm.phys, vmm.spaces, pd, g);
      forall q | q in was ensures View(vmm.phys, q) == View(m, q) { ViewBeside(m1, vmm.phys, vmm.spaces, pd, g, q); }
    }

    method LoadAll(segs: seq<Segment>) returns (ok: bool, pd: nat)
      requires vmm.Valid() && AllOpen(vmm.phys, vmm.spaces) && Loadable(segs)
      modifies vmm, vmm.pmm
      ensures ok ==> Filling(pd, old(vmm.phys), old(vmm.spaces), segs, |segs|)
      ensures !ok ==> !Aligned(segs) || |vmm.pmm.free| == 0
      ensures ok ==> Aligned(segs) && Shows(segs, Loaded(segs))
    {
      ghost var m, was := vmm.phys, vmm.spaces;
      ok, pd := NewSpace(segs);
      if !ok { return; }
      var i := 0;
      while i < |segs|
        invariant 0 <= i <= |segs| && Filling(pd, m, was, segs, i) && AlignedTo(segs, i)
      {
        ok := LoadOne(pd, m, was, segs, i);
        if !ok { return; }
        i := i + 1;
      }
      LoadedShows(segs);
    }

    method NewSpace(ghost segs: seq<Segment>) returns (ok: bool, pd: nat)
      requires vmm.Valid() && AllOpen(vmm.phys, vmm.spaces)
      modifies vmm, vmm.pmm
      ensures ok ==> Filling(pd, old(vmm.phys), old(vmm.spaces), segs, 0)
      ensures !ok ==> |vmm.pmm.free| == 0
    {
      ghost var m, was := vmm.phys, vmm.spaces;
      ok, pd := vmm.CreateAddressSpace();
      if !ok { return; }
      OpenAll(m, vmm.phys, was);
      ViewNew(vmm.phys, pd);
      forall q | q in was ensures View(vmm.phys, q) == View(m, q) { ViewSame(m, vmm.phys, was, q); }
    }

    /** A program for a new process, or in place of what a process had: the new space is made before the old
        one is given up. */
    method Load(pid: nat, segs: seq<Segment>) returns (ok: bool)
      requires Valid() && Loadable(segs)
      modifies this, vmm, vmm.pmm
      ensures ok ==> Valid() && Seen() == Effect(old(Seen()), Loads(pid, segs)) && Shows(segs, Seen()[pid])
      ensures !ok ==> !Aligned(segs) || |vmm.pmm.free| == 0
      ensures ok ==> Aligned(segs)
    {
      ghost var m, was := vmm.phys, vmm.spaces;
      var pd;
      ok, pd := LoadAll(segs);
      if !ok { return; }
      assert segs[..|segs|] == segs;
      ViewsLoaded(m, vmm.phys, pds, pid, pd);
      Install(pid, pd, was);
    }

    /** A finished space becomes a process's own. */
    method Install(pid: nat, pd: nat, ghost was: set<nat>)
      requires vmm.Valid() && pd !in was && vmm.spaces == was + {pd} && Owned(pds, was) && AllOpen(vmm.phys, vmm.spaces)
      modifies this, vmm`uses, vmm`spaces, vmm.pmm
      ensures Valid() && pds == old(pds)[pid := pd]
    {
      if pid in pds {
        OwnedLess(pds, was, pid);
        OwnedMore(pds - {pid}, was - {pds[pid]}, pid, pd);
        assert (pds - {pid})[pid := pd] == pds[pid := pd];
        vmm.FreeAddressSpace(pds[pid]);
        assert vmm.spaces == was - {old(pds)[pid]} + {pd};
      } else {
        OwnedMore(pds, was, pid, pd);
      }
      pds := pds[pid := pd];
    }

    method Happen(e: Event) returns (ok: bool)
      requires Valid() && Possible(Seen(), e)
      modifies this, vmm, vmm.pmm
      ensures ok ==> Valid() && Seen() == Effect(old(Seen()), e)
      ensures !ok ==> !Placed(e) || |vmm.pmm.free| == 0
      ensures ok ==> Placed(e)
    {
      match e
      case Forks(pid, child) => ok := ForkProcess(pid, child);
      case Stores(pid, v, b) => var found; ok, found := Store(pid, v, b);
      case CopiesOut(pid, v, data) => var n; ok, n := CopyOut(pid, v, data);
      case Loads(pid, segs) => ok := Load(pid, segs);
      case Exits(pid) => Exit(pid); ok := true;
    }

    /** Every run that does not run out of frames or load a misaligned program does to shared, copied and reused
        pages exactly what it would do to private flat memories; and when no process is left, every frame is
        free again. */
    method Run(events: seq<Event>) returns (ok: bool)
      requires Valid() && Legal(Seen(), events)
      modifies this, vmm, vmm.pmm
      ensures ok ==> Valid() && Seen() == After(old(Seen()), events)
      ensures ok && pds == map[] ==>
        |vmm.pmm.free| == if vmm.pmm.base < |vmm.phys| then |vmm.phys| - vmm.pmm.base else 0
      ensures !ok ==> |vmm.pmm.free| == 0 || exists i :: 0 <= i < |events| && !Placed(events[i])
      ensures ok ==> forall i :: 0 <= i < |events| ==> Placed(events[i])
    {
      ok := true;
      var i := 0;
      while i < |events|
        invariant 0 <= i <= |events| && Valid()
        invariant Legal(Seen(), events[i..]) && After(Seen(), events[i..]) == After(old(Seen()), events)
        invariant forall k :: 0 <= k < i ==> Placed(events[k])
      {
        assert events[i..][1..] == events[i + 1..];
        ok := Happen(events[i]);
        if !ok { return; }
        i := i + 1;
      }
      if pds == map[] {
        assert vmm.spaces == {};
        NothingUsed(vmm.phys, vmm.spaces, vmm.uses, vmm.pmm.base, vmm.pmm.free);
      }
    }
  }

  lemma SomeSpace(m: Memory, spaces: set<nat>, uses: Uses, lo: nat)
    requires Tables(m, spaces, uses, {}, lo)
    ensures uses != map[] ==> spaces != {}
  {
    if uses != map[] {
      var f :| f in uses;
      var u :| u in uses[f];
      assert u.pd in spaces;
    }
  }

  /** Without spaces, no frame is in use. */
  lemma NothingUsed(m: Memory, spaces: set<nat>, uses: Uses, lo: nat, free: seq<nat>)
    requires Tables(m, spaces, uses, {}, lo) && FreeList(free, uses, lo, |m|) && spaces == {}
    ensures |free| == if lo < |m| then |m| - lo else 0
  {
    SomeSpace(m, spaces, uses, lo);
    DistinctSize(free);
    assert Elements(free) == Span(lo, |m|);
  }

  ghost function Span(lo: nat, hi: nat): (r: set<nat>)
    ensures |r| == if lo < hi then hi - lo else 0
    ensures forall f :: f in r <==> lo <= f < hi
  {
    if lo < hi then Span(lo, hi - 1) + {hi - 1} else {}
  }
}
