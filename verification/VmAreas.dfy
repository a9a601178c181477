/** The memory areas of a process: mapping, unmapping and protecting ranges of pages. */
module VmAreas {
  import opened Folding
  import opened Ints

  const MAX_VMAS := 16
  const NFD := 16
  const USER_BASE := 0x400_0000
  const GUARD_PAGE := 0x7fe_f000
  const STACK_PAGE := 0x7ff_0000
  const STACK_TOP := 0x800_0000

  function Floor(x: int): int { x - x % 4096 }

  /** Up to the next page boundary, wrapping round like the machine. */
  function PageAlignUp(v: int): int { Floor(Wrap(v + 4095)) }

  /** The true end of a range of whole pages. */
  function RangeEnd(address: int, length: int): int { address + (length + 4095) / 4096 * 4096 }

  predicate OnPage(x: int) { x % 4096 == 0 }

  // ---- areas ----

  datatype Area = Area(used: bool, start: int, end: int, prot: int, flags: int, file: int, offset: int)

  datatype Info = Info(prot: int, flags: int, file: int, offset: int)

  predicate Holds(a: Area, page: int) { a.used && a.start <= page < a.end }

  /** What the area says of a page in it; the file offset follows the page. */
  function InfoAt(a: Area, page: int): Info { Info(a.prot, a.flags, a.file, Wrap(a.offset + page - a.start)) }

  predicate InAreas(s: seq<Area>, page: int) { exists i :: 0 <= i < |s| && Holds(s[i], page) }

  /** The areas as a map from pages. */
  ghost predicate Shows(s: seq<Area>, page: int, info: Info) {
    exists i :: 0 <= i < |s| && ShowsAt(s, i, page, info)
  }

  predicate ShowsAt(s: seq<Area>, i: int, page: int, info: Info) {
    0 <= i < |s| && Holds(s[i], page) && InfoAt(s[i], page) == info
  }

  predicate Separate(a: Area, b: Area) {
    a.used && b.used && a.start < a.end && b.start < b.end ==> a.end <= b.start || b.end <= a.start
  }

  ghost predicate AllSeparate(s: seq<Area>) { forall i, j :: 0 <= i < j < |s| ==> Separate(s[i], s[j]) }

  predicate Proper(a: Area) {
    a.used ==> OnPage(a.start) && OnPage(a.end) && Int32(a.start) && Int32(a.end) && Int32(a.offset)
  }

  ghost predicate AllProper(s: seq<Area>) { forall i :: 0 <= i < |s| ==> Proper(s[i]) }

  lemma OneHolder(s: seq<Area>, i: int, j: int, page: int)
    requires AllSeparate(s) && 0 <= i < |s| && 0 <= j < |s|
    ensures Holds(s[i], page) && Holds(s[j], page) ==> i == j
  {
  }

  /** So the map is one: a page shows one thing. */
  lemma OneInfo(s: seq<Area>, page: int, a: Info, b: Info)
    requires AllSeparate(s) && Shows(s, page, a) && Shows(s, page, b)
    ensures a == b
  {
    var i :| 0 <= i < |s| && ShowsAt(s, i, page, a);
    var j :| 0 <= j < |s| && ShowsAt(s, j, page, b);
    OneHolder(s, i, j, page);
  }

  // ---- files held ----

  function FileOf(a: Area): multiset<int> { if a.used && a.file >= 0 then multiset{a.file} else multiset{} }

  function Refers(a: Area, z: int): nat { if a.used && a.file >= 0 && a.file == z then 1 else 0 }

  lemma FileIs(a: Area, z: int)
    ensures FileOf(a)[z] == Refers(a, z)
  {
  }

  /** How many references to file z the first n areas account for. */
  function Held(s: seq<Area>, n: nat, z: int): nat
    requires n <= |s|
  {
    if n == 0 then 0 else Held(s, n - 1, z) + Refers(s[n - 1], z)
  }

  lemma {:induction false} HeldUpdate(s: seq<Area>, i: nat, a: Area, n: nat, z: int)
    requires i < |s| && n <= |s|
    ensures n <= i ==> Held(s[i := a], n, z) == Held(s, n, z)
    ensures n > i ==> Held(s, n, z) >= Refers(s[i], z)
    ensures n > i ==> Held(s[i := a], n, z) == Held(s, n, z) - Refers(s[i], z) + Refers(a, z)
  {
    if n > 0 { HeldUpdate(s, i, a, n - 1, z); }
  }

  /** The references held are those the areas account for. */
  ghost predicate Counted(refs: multiset<int>, s: seq<Area>) {
    forall z: int :: Shown(z, refs, s) ==> refs[z] == Held(s, |s|, z)
  }

  lemma CountedSame(refs: multiset<int>, s: seq<Area>, i: nat, a: Area)
    requires Counted(refs, s) && i < |s| && FileOf(a) == FileOf(s[i])
    ensures Counted(refs, s[i := a])
  {
    forall z: int ensures (refs)[z] == Held(s[i := a], |s|, z) {
      assert Shown(z, refs, s);
      HeldUpdate(s, i, a, |s|, z);
      FileIs(a, z);
      FileIs(s[i], z);
    }
  }

  lemma CountedLess(refs: multiset<int>, s: seq<Area>, i: nat, a: Area)
    requires Counted(refs, s) && i < |s| && FileOf(a) == multiset{}
    ensures Counted(refs - FileOf(s[i]), s[i := a])
  {
    forall z: int ensures (refs - FileOf(s[i]))[z] == Held(s[i := a], |s|, z) {
      assert Shown(z, refs, s);
      HeldUpdate(s, i, a, |s|, z);
      FileIs(a, z);
      FileIs(s[i], z);
    }
  }

  lemma CountedMore(refs: multiset<int>, s: seq<Area>, i: nat, a: Area)
    requires Counted(refs, s) && i < |s| && FileOf(s[i]) == multiset{}
    ensures Counted(refs + FileOf(a), s[i := a])
  {
    forall z: int ensures (refs + FileOf(a))[z] == Held(s[i := a], |s|, z) {
      assert Shown(z, refs, s);
      HeldUpdate(s, i, a, |s|, z);
      FileIs(a, z);
      FileIs(s[i], z);
    }
  }

  // ---- unmapping, area by area ----

  /** The range lies strictly inside the area. */
  predicate Splits(a: Area, start: int, end: int) { a.used && start > a.start && end < a.end }

  /** What the loop leaves of an area; the part past the range of a split one goes to another slot. */
  function Trim(a: Area, start: int, end: int): Area {
    if Splits(a, start, end) then a.(end := start)
    else if a.used && start <= a.start && end >= a.end then a.(used := false)
    else if a.used && start <= a.start && end > a.start then a.(start := end, offset := Wrap(a.offset + end - a.start))
    else if a.used && start < a.end && end >= a.end then a.(end := start)
    else a
  }

  /** The part of a split area past the range. */
  function Rest(a: Area, end: int): Area {
    Area(true, end, a.end, a.prot, a.flags, a.file, Wrap(a.offset + end - a.start))
  }

  lemma TrimShows(a: Area, start: int, end: int, page: int)
    requires start < end
    ensures Holds(Trim(a, start, end), page) <==>
      Holds(a, page) && !(start <= page < end) && !(Splits(a, start, end) && page >= end)
    ensures Holds(Trim(a, start, end), page) ==> InfoAt(Trim(a, start, end), page) == InfoAt(a, page)
  {
    WrapTwice(a.offset + end - a.start, page - end);
  }

  lemma RestShows(a: Area, start: int, end: int, page: int)
    requires start < end && Splits(a, start, end)
    ensures Holds(Rest(a, end), page) <==> Holds(a, page) && page >= end
    ensures InfoAt(Rest(a, end), page) == InfoAt(a, page)
  {
    WrapTwice(a.offset + end - a.start, page - end);
  }

  lemma TrimSeparate(a: Area, b: Area, start: int, end: int)
    requires Separate(a, b) && start < end
    ensures Separate(Trim(a, start, end), Trim(b, start, end)) && Separate(Trim(a, start, end), b)
      && Separate(b, Trim(a, start, end))
    ensures Splits(a, start, end) ==>
      Separate(Rest(a, end), Trim(b, start, end)) && Separate(Trim(b, start, end), Rest(a, end))
    ensures Separate(b, a)
  {
  }

  /** The first i areas have been treated; slot x, unless it is -1, has the rest of area m. */
  ghost predicate Trimmed(was: seq<Area>, now: seq<Area>, start: int, end: int, i: int, x: int, m: int) {
    && |now| == |was| && 0 <= i <= |was|
    && (x != -1 ==> 0 <= x < |was| && 0 <= m < i && Splits(was[m], start, end) && !Before(was, start, end, i, x).used)
    && (forall k :: 0 <= k < |was| ==> now[k] == if k == x then Rest(was[m], end) else Before(was, start, end, i, k))
    && (x == -1 ==> forall k :: 0 <= k < i ==> !Splits(was[k], start, end))
  }

  ghost function Before(was: seq<Area>, start: int, end: int, i: int, k: int): Area
    requires 0 <= k < |was|
  {
    if k < i then Trim(was[k], start, end) else was[k]
  }

  lemma OneSplit(s: seq<Area>, start: int, end: int, i: int, j: int)
    requires AllSeparate(s) && 0 <= i < |s| && 0 <= j < |s| && start < end && Splits(s[i], start, end)
      && Splits(s[j], start, end)
    ensures i == j
  {
  }

  lemma TrimmedShows(was: seq<Area>, now: seq<Area>, start: int, end: int, x: int, m: int, page: int, info: Info)
    requires AllSeparate(was) && start < end && Trimmed(was, now, start, end, |was|, x, m)
    ensures Shows(now, page, info) <==> Shows(was, page, info) && !(start <= page < end)
  {
    if Shows(now, page, info) {
      var k :| 0 <= k < |now| && ShowsAt(now, k, page, info);
      var src := if k == x then m else k;
      TrimShows(was[src], start, end, page);
      if k == x { RestShows(was[m], start, end, page); }
      assert ShowsAt(was, src, page, info);
    }
    if Shows(was, page, info) && !(start <= page < end) {
      var k :| 0 <= k < |was| && ShowsAt(was, k, page, info);
      TrimShows(was[k], start, end, page);
      if Splits(was[k], start, end) && page >= end {
        if x != -1 {
          OneSplit(was, start, end, k, m);
          RestShows(was[m], start, end, page);
          assert ShowsAt(now, x, page, info);
        }
      } else if k != x {
        assert ShowsAt(now, k, page, info);
      }
    }
  }

  /** A split finds a free slot. */
  ghost predicate SlotFor(s: seq<Area>, start: int, end: int) {
    (exists k :: 0 <= k < |s| && Splits(s[k], start, end)) ==> exists f :: 0 <= f < |s| && !s[f].used
  }

  lemma TrimmedNext(was: seq<Area>, now: seq<Area>, start: int, end: int, i: int, x: int, m: int)
    requires Trimmed(was, now, start, end, i, x, m) && i < |was| && start < end && !Splits(now[i], start, end)
    ensures Trimmed(was, now[i := Trim(now[i], start, end)], start, end, i + 1, x, m)
  {
  }

  /** Only one area is split, its own slot is as it was, and the free slot is still free. */
  lemma TrimmedHere(was: seq<Area>, now: seq<Area>, start: int, end: int, i: int, x: int, m: int)
    requires Trimmed(was, now, start, end, i, x, m) && i < |was| && start < end && AllSeparate(was)
      && SlotFor(was, start, end)
    ensures Splits(now[i], start, end) ==> x == -1 && now[i] == was[i] && exists f :: 0 <= f < |now| && !now[f].used
  {
    if Splits(now[i], start, end) {
      if x != -1 { OneSplit(was, start, end, i, m); }
      var f :| 0 <= f < |was| && !was[f].used;
      assert !now[f].used;
    }
  }

  lemma TrimmedSplit(was: seq<Area>, now: seq<Area>, start: int, end: int, i: int, m: int, x: int)
    requires Trimmed(was, now, start, end, i, -1, m) && i < |was| && Splits(was[i], start, end) && 0 <= x < |was|
      && !now[x].used
    ensures now[i] == was[i] && x != i
    ensures Trimmed(was, now[x := Rest(was[i], end)][i := Trim(was[i], start, end)], start, end, i + 1, x, i)
  {
  }

  lemma TrimmedSeparate(was: seq<Area>, now: seq<Area>, start: int, end: int, x: int, m: int)
    requires AllSeparate(was) && start < end && Trimmed(was, now, start, end, |was|, x, m)
    ensures AllSeparate(now)
  {
    forall i, j | 0 <= i < j < |now| ensures Separate(now[i], now[j]) {
      assert Separate(was[i], was[j]);
      TrimSeparate(was[i], was[j], start, end);
      if i == x { RestSeparate(was, start, end, m, j); }
      if j == x { RestSeparate(was, start, end, m, i); }
    }
  }

  lemma RestSeparate(was: seq<Area>, start: int, end: int, m: int, k: int)
    requires AllSeparate(was) && start < end && 0 <= m < |was| && 0 <= k < |was| && Splits(was[m], start, end)
    ensures Separate(Rest(was[m], end), Trim(was[k], start, end))
      && Separate(Trim(was[k], start, end), Rest(was[m], end))
  {
    if m < k {
      TrimSeparate(was[m], was[k], start, end);
    } else if k < m {
      TrimSeparate(was[k], was[m], start, end);
      TrimSeparate(was[m], was[k], start, end);
    }
  }

  lemma TrimmedProper(was: seq<Area>, now: seq<Area>, start: int, end: int, x: int, m: int)
    requires AllProper(was) && OnPage(start) && OnPage(end) && Int32(start) && Int32(end)
      && Trimmed(was, now, start, end, |was|, x, m)
    ensures AllProper(now)
  {
    forall i | 0 <= i < |now| ensures Proper(now[i]) {
      assert Proper(was[i]);
      if i == x { assert Proper(was[m]); }
    }
  }

  /** No page of the break lies in an area. */
  ghost predicate BreakApart(s: seq<Area>, lo: int, hi: int) {
    forall page :: OnPage(page) && lo <= page < PageAlignUp(hi) ==> !InAreas(s, page)
  }

  lemma ShowsIn(s: seq<Area>, page: int)
    ensures InAreas(s, page) <==> exists info :: Shows(s, page, info)
  {
    if InAreas(s, page) {
      var i :| 0 <= i < |s| && Holds(s[i], page);
      assert ShowsAt(s, i, page, InfoAt(s[i], page));
      assert Shows(s, page, InfoAt(s[i], page));
    }
    if info :| Shows(s, page, info) {
      var i :| 0 <= i < |s| && ShowsAt(s, i, page, info);
    }
  }

  lemma TrimmedAll(was: seq<Area>, now: seq<Area>, start: int, end: int, x: int, m: int, lo: int, hi: int)
    requires AllSeparate(was) && AllProper(was) && BreakApart(was, lo, hi) && start < end && OnPage(start)
      && OnPage(end) && Int32(start) && Int32(end)
    requires Trimmed(was, now, start, end, |was|, x, m)
    ensures AllSeparate(now) && AllProper(now) && BreakApart(now, lo, hi)
    ensures forall page, info :: Shows(now, page, info) <==> Shows(was, page, info) && !(start <= page < end)
  {
    TrimmedSeparate(was, now, start, end, x, m);
    TrimmedProper(was, now, start, end, x, m);
    forall page, info ensures Shows(now, page, info) <==> Shows(was, page, info) && !(start <= page < end) {
      TrimmedShows(was, now, start, end, x, m, page, info);
    }
    forall page | OnPage(page) && lo <= page < PageAlignUp(hi) ensures !InAreas(now, page) {
      ShowsIn(was, page);
      ShowsIn(now, page);
    }
  }

  // ---- protecting, area by area ----

  predicate Overlaps(a: Area, start: int, end: int) { a.used && start < a.end && end > a.start }

  function Max(x: int, y: int): int { if x < y then y else x }
  function Min(x: int, y: int): int { if x > y then y else x }

  /** How many more areas the range makes of this one. */
  function Need(a: Area, start: int, end: int): nat {
    if Overlaps(a, start, end)
      then (if Max(start, a.start) > a.start then 1 else 0) + (if Min(end, a.end) < a.end then 1 else 0) else 0
  }

  function NeedFrom(s: seq<Area>, start: int, end: int, i: nat): nat
    decreases |s| - i
  {
    if i >= |s| then 0 else Need(s[i], start, end) + NeedFrom(s, start, end, i + 1)
  }

  function FreeFrom(s: seq<Area>, i: nat): nat
    decreases |s| - i
  {
    if i >= |s| then 0 else (if s[i].used then 0 else 1) + FreeFrom(s, i + 1)
  }

  lemma {:induction false} FreeUpdate(s: seq<Area>, k: nat, a: Area, i: nat)
    requires k < |s|
    ensures FreeFrom(s[k := a], i) == FreeFrom(s, i) + if i <= k
      then (if a.used then 0 else 1) - (if s[k].used then 0 else 1) else 0
    decreases |s| - i
  {
    if i < |s| { FreeUpdate(s, k, a, i + 1); }
  }

  lemma {:induction false} FreeSome(s: seq<Area>, i: nat) returns (k: nat)
    requires FreeFrom(s, i) > 0
    ensures i <= k < |s| && !s[k].used
    decreases |s| - i
  {
    if s[i].used { k := FreeSome(s, i + 1); } else { k := i; }
  }

  function Recast(info: Info, prot: int, yes: bool): Info { if yes then info.(prot := prot) else info }

  /** What page shows once the first i areas have been treated. */
  ghost predicate ShowsAs(was: seq<Area>, start: int, end: int, prot: int, i: int, page: int, info: Info) {
    exists k :: ShowsFrom(was, start, end, prot, i, k, page, info)
  }

  predicate ShowsFrom(was: seq<Area>, start: int, end: int, prot: int, i: int, k: int, page: int, info: Info) {
    0 <= k < |was| && Holds(was[k], page) && info == Recast(InfoAt(was[k], page), prot, k < i && start <= page < end)
  }

  /** The first i areas have been treated, and slots for the others are still free. */
  ghost predicate Protected(was: seq<Area>, now: seq<Area>, start: int, end: int, prot: int, i: nat) {
    && |now| == |was| && AllSeparate(now) && AllProper(now)
    && (forall k :: i <= k < |was| && was[k].used ==> now[k] == was[k])
    && FreeFrom(now, 0) >= NeedFrom(was, start, end, i)
    && (forall page, info :: Shows(now, page, info) <==> ShowsAs(was, start, end, prot, i, page, info))
  }

  /** Some slot but i shows it. */
  ghost predicate ShowsBut(s: seq<Area>, i: int, page: int, info: Info) {
    exists k :: k != i && ShowsAt(s, k, page, info)
  }

  predicate AreaShows(a: Area, page: int, info: Info) { Holds(a, page) && InfoAt(a, page) == info }

  lemma ShowsOr(s: seq<Area>, i: nat, page: int, info: Info)
    requires i < |s|
    ensures Shows(s, page, info) <==> ShowsBut(s, i, page, info) || AreaShows(s[i], page, info)
  {
    if AreaShows(s[i], page, info) { assert ShowsAt(s, i, page, info); }
    if ShowsBut(s, i, page, info) {
      var k :| k != i && ShowsAt(s, k, page, info);
    }
  }

  /** Area i has been replaced by pieces: itself cut down and others in free slots. */
  ghost predicate Repieced(now: seq<Area>, after: seq<Area>, i: nat, pieces: seq<Area>) {
    && i < |now| == |after|
    && (forall page, info :: Shows(after, page, info) <==>
      ShowsBut(now, i, page, info) || PieceShows(pieces, page, info))
    && (forall k :: 0 <= k < |now| && k != i && now[k].used ==> after[k] == now[k])
  }

  ghost predicate PieceShows(pieces: seq<Area>, page: int, info: Info) {
    exists p :: 0 <= p < |pieces| && AreaShows(pieces[p], page, info)
  }

  lemma OnePiece(now: seq<Area>, i: nat, a: Area)
    requires i < |now|
    ensures Repieced(now, now[i := a], i, [a])
  {
    var after := now[i := a];
    forall page, info
      ensures Shows(after, page, info) <==> ShowsBut(now, i, page, info) || PieceShows([a], page, info)
    {
      ShowsOr(after, i, page, info);
      if ShowsBut(now, i, page, info) {
        var k :| k != i && ShowsAt(now, k, page, info);
        assert ShowsAt(after, k, page, info);
      }
      if ShowsBut(after, i, page, info) {
        var k :| k != i && ShowsAt(after, k, page, info);
        assert ShowsAt(now, k, page, info);
      }
      if AreaShows(a, page, info) { assert AreaShows([a][0], page, info); }
    }
  }

  lemma MorePiece(now: seq<Area>, mid: seq<Area>, i: nat, pieces: seq<Area>, f: nat, b: Area)
    requires Repieced(now, mid, i, pieces) && f < |mid| && !mid[f].used && (f != i ==> !now[f].used)
    ensures Repieced(now, mid[f := b], i, pieces + [b])
  {
    var after, more := mid[f := b], pieces + [b];
    forall page, info
      ensures Shows(after, page, info) <==> ShowsBut(now, i, page, info) || PieceShows(more, page, info)
    {
      FilledShows(mid, f, b, page, info);
      MoreShows(pieces, b, page, info);
    }
  }

  lemma FilledShows(mid: seq<Area>, f: nat, b: Area, page: int, info: Info)
    requires f < |mid| && !mid[f].used
    ensures Shows(mid[f := b], page, info) <==> Shows(mid, page, info) || AreaShows(b, page, info)
  {
    var after := mid[f := b];
    if k :| ShowsAt(mid, k, page, info) { assert ShowsAt(after, k, page, info); }
    if AreaShows(b, page, info) { assert ShowsAt(after, f, page, info); }
    if k :| ShowsAt(after, k, page, info) {
      if k != f { assert ShowsAt(mid, k, page, info); }
    }
  }

  lemma MoreShows(pieces: seq<Area>, b: Area, page: int, info: Info)
    ensures PieceShows(pieces + [b], page, info) <==> PieceShows(pieces, page, info) || AreaShows(b, page, info)
  {
    var more := pieces + [b];
    assert more[|pieces|] == b;
    if PieceShows(pieces, page, info) {
      var p :| 0 <= p < |pieces| && AreaShows(pieces[p], page, info);
      assert AreaShows(more[p], page, info);
    }
    if PieceShows(more, page, info) {
      var p :| 0 <= p < |more| && AreaShows(more[p], page, info);
      if p < |pieces| { assert AreaShows(pieces[p], page, info); }
    }
  }

  /** The pieces together show what the area did, with the protection of the range changed. */
  ghost predicate Recut(a: Area, start: int, end: int, prot: int, pieces: seq<Area>) {
    forall page, info :: PieceShows(pieces, page, info) <==>
      Holds(a, page) && info == Recast(InfoAt(a, page), prot, start <= page < end)
  }

  /** Treating area i keeps the account. */
  lemma RecutShows(was: seq<Area>, now: seq<Area>, after: seq<Area>, start: int, end: int, prot: int, i: nat,
                   pieces: seq<Area>, page: int, info: Info)
    requires AllSeparate(was) && AllSeparate(now) && i < |was| == |now| && (was[i].used ==> now[i] == was[i])
      && Repieced(now, after, i, pieces) && Recut(was[i], start, end, prot, pieces)
    requires Shows(now, page, info) <==> ShowsAs(was, start, end, prot, i, page, info)
    requires was[i].used
    ensures Shows(after, page, info) <==> ShowsAs(was, start, end, prot, i + 1, page, info)
  {
    if ShowsBut(now, i, page, info) {
      var j :| j != i && ShowsAt(now, j, page, info);
      assert Shows(now, page, info);
      var k :| ShowsFrom(was, start, end, prot, i, k, page, info);
      OneHolder(now, i, j, page);
      assert ShowsFrom(was, start, end, prot, i + 1, k, page, info);
    }
    if PieceShows(pieces, page, info) { assert ShowsFrom(was, start, end, prot, i + 1, i, page, info); }
    if ShowsAs(was, start, end, prot, i + 1, page, info) {
      var k :| ShowsFrom(was, start, end, prot, i + 1, k, page, info);
      if k != i {
        assert ShowsFrom(was, start, end, prot, i, k, page, info);
        var j :| 0 <= j < |now| && ShowsAt(now, j, page, info);
        OneHolder(was, i, k, page);
        assert ShowsBut(now, i, page, info);
      }
    }
  }

  lemma SkipShows(was: seq<Area>, start: int, end: int, prot: int, i: nat, page: int, info: Info)
    requires i < |was| && !Overlaps(was[i], start, end)
    ensures ShowsAs(was, start, end, prot, i, page, info) <==> ShowsAs(was, start, end, prot, i + 1, page, info)
  {
    if k :| ShowsFrom(was, start, end, prot, i, k, page, info) {
      assert ShowsFrom(was, start, end, prot, i + 1, k, page, info);
    }
    if ShowsAs(was, start, end, prot, i + 1, page, info) {
      var k :| ShowsFrom(was, start, end, prot, i + 1, k, page, info);
      assert ShowsFrom(was, start, end, prot, i, k, page, info);
    }
  }

  lemma ProtectedSkip(was: seq<Area>, now: seq<Area>, start: int, end: int, prot: int, i: nat)
    requires Protected(was, now, start, end, prot, i) && i < |was| && !Overlaps(was[i], start, end)
    ensures Protected(was, now, start, end, prot, i + 1)
  {
    forall page, info ensures Shows(now, page, info) <==> ShowsAs(was, start, end, prot, i + 1, page, info) {
      SkipShows(was, start, end, prot, i, page, info);
    }
  }

  lemma ProtectedNext(was: seq<Area>, now: seq<Area>, after: seq<Area>, start: int, end: int, prot: int, i: nat,
                      pieces: seq<Area>)
    requires AllSeparate(was) && Protected(was, now, start, end, prot, i) && i < |was| && was[i].used
    requires Repieced(now, after, i, pieces) && Recut(was[i], start, end, prot, pieces)
    requires AllSeparate(after) && AllProper(after) && FreeFrom(after, 0) >= FreeFrom(now, 0) - Need(was[i], start, end)
    ensures Protected(was, after, start, end, prot, i + 1)
  {
    forall page, info ensures Shows(after, page, info) <==> ShowsAs(was, start, end, prot, i + 1, page, info) {
      RecutShows(was, now, after, start, end, prot, i, pieces, page, info);
    }
  }

  // ---- pieces ----

  /** Part of an area: its file offset follows. */
  function Piece(a: Area, lo: int, hi: int, prot: int): Area {
    Area(true, lo, hi, prot, a.flags, a.file, Wrap(a.offset + lo - a.start))
  }

  predicate Within(b: Area, a: Area) { a.start <= b.start && b.end <= a.end }

  lemma PieceIs(a: Area, lo: int, hi: int, prot: int, page: int, info: Info)
    requires a.used && a.start <= lo && hi <= a.end
    ensures AreaShows(Piece(a, lo, hi, prot), page, info) <==>
      Holds(a, page) && lo <= page < hi && info == InfoAt(a, page).(prot := prot)
  {
    WrapTwice(a.offset + lo - a.start, page - lo);
  }

  /** An area cut at one or two places shows the same, but for the protection of the part in the range. */
  lemma TwoRecut(a: Area, start: int, end: int, prot: int, cut: int, p: int, q: int)
    requires a.used && a.start < cut < a.end
    requires (start <= a.start && end == cut && p == prot && q == a.prot)
      || (start == cut && end >= a.end && p == a.prot && q == prot)
    ensures Recut(a, start, end, prot, [Piece(a, a.start, cut, p), Piece(a, cut, a.end, q)])
      && Recut(a, start, end, prot, [Piece(a, cut, a.end, q), Piece(a, a.start, cut, p)])
  {
    var b, c := Piece(a, a.start, cut, p), Piece(a, cut, a.end, q);
    forall page, info
      ensures AreaShows(b, page, info) || AreaShows(c, page, info) <==>
        Holds(a, page) && info == Recast(InfoAt(a, page), prot, start <= page < end)
    {
      PieceIs(a, a.start, cut, p, page, info);
      PieceIs(a, cut, a.end, q, page, info);
    }
    TwoShow(b, c);
    TwoShow(c, b);
  }

  lemma TwoShow(b: Area, c: Area)
    ensures forall page, info :: PieceShows([b, c], page, info) <==>
      AreaShows(b, page, info) || AreaShows(c, page, info)
  {
    var two := [b, c];
    forall page, info ensures PieceShows(two, page, info) <==> AreaShows(b, page, info) || AreaShows(c, page, info) {
      assert two[0] == b && two[1] == c;
      if AreaShows(b, page, info) { assert AreaShows(two[0], page, info); }
      if AreaShows(c, page, info) { assert AreaShows(two[1], page, info); }
    }
  }

  lemma ThreeRecut(a: Area, start: int, end: int, prot: int)
    requires a.used && a.start < start < end < a.end
    ensures Recut(a, start, end, prot,
        [Piece(a, a.start, start, a.prot), Piece(a, start, end, prot), Piece(a, end, a.end, a.prot)])
  {
    var b, c, d := Piece(a, a.start, start, a.prot), Piece(a, start, end, prot), Piece(a, end, a.end, a.prot);
    var three := [b, c, d];
    forall page, info
      ensures PieceShows(three, page, info) <==>
        Holds(a, page) && info == Recast(InfoAt(a, page), prot, start <= page < end)
    {
      PieceIs(a, a.start, start, a.prot, page, info);
      PieceIs(a, start, end, prot, page, info);
      PieceIs(a, end, a.end, a.prot, page, info);
      assert three == [b, c] + [d];
      MoreShows([b, c], d, page, info);
      TwoShow(b, c);
    }
  }

  lemma WholeRecut(a: Area, start: int, end: int, prot: int)
    requires a.used && start <= a.start && end >= a.end
    ensures Recut(a, start, end, prot, [a.(prot := prot)])
  {
    var one := [a.(prot := prot)];
    forall page, info
      ensures PieceShows(one, page, info) <==>
        Holds(a, page) && info == Recast(InfoAt(a, page), prot, start <= page < end)
    {
      if AreaShows(a.(prot := prot), page, info) { assert AreaShows(one[0], page, info); }
    }
  }

  // ---- pieces in their slots ----

  ghost predicate Clear(s: seq<Area>, b: Area) { forall k :: 0 <= k < |s| ==> Separate(s[k], b) && Separate(b, s[k]) }

  lemma CutSeparate(now: seq<Area>, i: nat, b: Area)
    requires AllSeparate(now) && i < |now| && now[i].used && (now[i].start < now[i].end || b.end <= b.start)
      && Within(b, now[i])
    ensures AllSeparate(now[i := b])
  {
  }

  lemma FillSeparate(s: seq<Area>, f: nat, b: Area)
    requires AllSeparate(s) && f < |s| && Clear(s, b)
    ensures AllSeparate(s[f := b])
  {
  }

  lemma ClearCut(now: seq<Area>, i: nat, a': Area, b: Area)
    requires AllSeparate(now) && i < |now| && now[i].used && now[i].start < now[i].end && Within(b, now[i])
      && Separate(a', b)
    ensures Clear(now[i := a'], b)
  {
    forall k | 0 <= k < |now| && k != i ensures Separate(now[k], b) && Separate(b, now[k]) {
      if k < i { assert Separate(now[k], now[i]); } else { assert Separate(now[i], now[k]); }
    }
  }

  lemma ClearFill(s: seq<Area>, f: nat, b: Area, c: Area)
    requires f < |s| && Clear(s, c) && Separate(b, c)
    ensures Clear(s[f := b], c)
  {
  }

  /** One area made two: the first piece in its slot, the second in a free one. */
  lemma TwoPieces(now: seq<Area>, i: nat, f: nat, b: Area, c: Area)
    requires AllSeparate(now) && AllProper(now) && i < |now| && f < |now| && f != i && now[i].used && !now[f].used
    requires now[i].start < now[i].end && Within(b, now[i]) && Within(c, now[i]) && Separate(b, c) && b.used && c.used
      && Proper(b) && Proper(c)
    ensures Repieced(now, now[i := b][f := c], i, [b, c]) && AllSeparate(now[i := b][f := c])
      && AllProper(now[i := b][f := c])
    ensures FreeFrom(now[i := b][f := c], 0) == FreeFrom(now, 0) - 1
  {
    OnePiece(now, i, b);
    MorePiece(now, now[i := b], i, [b], f, c);
    assert [b] + [c] == [b, c];
    CutSeparate(now, i, b);
    ClearCut(now, i, b, c);
    FillSeparate(now[i := b], f, c);
    FreeUpdate(now, i, b, 0);
    FreeUpdate(now[i := b], f, c, 0);
  }

  lemma ThreePieces(now: seq<Area>, i: nat, f: nat, g: nat, b: Area, c: Area, d: Area)
    requires AllSeparate(now) && AllProper(now) && i < |now| && f < |now| && g < |now| && f != i && g != i && g != f
      && now[i].used && !now[f].used && !now[g].used
    requires now[i].start < now[i].end && Within(b, now[i]) && Within(c, now[i]) && Within(d, now[i]) && Separate(b, c)
      && Separate(b, d) && Separate(c, d)
    requires b.used && c.used && d.used && Proper(b) && Proper(c) && Proper(d)
    ensures var after := now[i := b][f := c][g := d];
      Repieced(now, after, i, [b, c, d]) && AllSeparate(after) && AllProper(after)
      && FreeFrom(after, 0) == FreeFrom(now, 0) - 2
  {
    var mid := now[i := b][f := c];
    TwoPieces(now, i, f, b, c);
    MorePiece(now, mid, i, [b, c], g, d);
    assert [b, c] + [d] == [b, c, d];
    ClearCut(now, i, b, d);
    ClearFill(now[i := b], f, c, d);
    FillSeparate(mid, g, d);
    FreeUpdate(mid, g, d, 0);
  }

  /** Done exactly when the range is in bounds and in areas and there are slots; then only its protection changes. */
  ghost predicate Reprotects(status: Status, was: seq<Area>, now: seq<Area>, start: int, end: int, prot: int) {
    && (status == Done <==>
        USER_BASE <= start < end <= STACK_TOP && InRange(was, start, end)
        && NeedFrom(was, start, end, 0) <= FreeFrom(was, 0))
    && (status == Done ==> forall page, info :: Shows(now, page, info) <==>
        Reprotected(was, start, end, prot, page, info))
  }

  lemma OutOfBounds(was: seq<Area>, start: int, end: int, prot: int)
    requires !(USER_BASE <= start < end <= STACK_TOP)
    ensures Reprotects(NoMemory, was, was, start, end, prot)
  {
  }

  ghost predicate InRange(s: seq<Area>, start: int, end: int) {
    forall page :: OnPage(page) && start <= page < end ==> InAreas(s, page)
  }

  /** Done unless the range splits an area and no slot is free; then exactly its pages are gone. */
  ghost predicate Unmaps(status: Status, was: seq<Area>, now: seq<Area>, mapped: set<int>, mapped': set<int>,
                         start: int, end: int) {
    && (status == Done <==> SlotFor(was, start, end))
    && (status == Done ==> forall page, info :: Shows(now, page, info) <==>
        Shows(was, page, info) && !(start <= page < end))
    && (status == Done ==> forall p :: p in mapped' <==> p in mapped && !(start <= p < end && InAreas(was, p)))
  }

  lemma ProtectedStart(was: seq<Area>, start: int, end: int, prot: int)
    requires AllSeparate(was) && AllProper(was) && NeedFrom(was, start, end, 0) <= FreeFrom(was, 0)
    ensures Protected(was, was, start, end, prot, 0)
  {
    forall page, info ensures Shows(was, page, info) <==> ShowsAs(was, start, end, prot, 0, page, info) {
      if k :| ShowsAt(was, k, page, info) { assert ShowsFrom(was, start, end, prot, 0, k, page, info); }
      if k :| ShowsFrom(was, start, end, prot, 0, k, page, info) { assert ShowsAt(was, k, page, info); }
    }
  }

  lemma WholeStep(was: seq<Area>, now: seq<Area>, start: int, end: int, prot: int, i: nat)
    requires AllSeparate(was) && Protected(was, now, start, end, prot, i) && i < |was| && was[i].used
      && start <= was[i].start && end >= was[i].end
    ensures Protected(was, now[i := was[i].(prot := prot)], start, end, prot, i + 1)
  {
    var a := was[i];
    OnePiece(now, i, a.(prot := prot));
    WholeRecut(a, start, end, prot);
    FreeUpdate(now, i, a.(prot := prot), 0);
    assert now[i] == a && Proper(now[i]);
    ProtectedNext(was, now, now[i := a.(prot := prot)], start, end, prot, i, [a.(prot := prot)]);
  }

  lemma LeftStep(was: seq<Area>, now: seq<Area>, after: seq<Area>, start: int, end: int, prot: int, i: nat, f: nat)
    requires AllSeparate(was) && Protected(was, now, start, end, prot, i) && i < |was| && was[i].used
      && start <= was[i].start < end < was[i].end && OnPage(end) && Int32(end)
    requires f < |was| && f != i && !now[f].used
    requires var a := was[i];
      after == now[i := a.(start := end, offset := Wrap(a.offset + end - a.start))][f := Area(true, a.start, end, prot,
        a.flags, a.file, a.offset)] && Int32(a.offset)
    ensures Protected(was, after, start, end, prot, i + 1)
  {
    var a := was[i];
    assert now[i] == a && Proper(now[i]);
    var b, c := Piece(a, end, a.end, a.prot), Piece(a, a.start, end, prot);
    WrapFits(a.offset);
    TwoPieces(now, i, f, b, c);
    TwoRecut(a, start, end, prot, end, prot, a.prot);
    ProtectedNext(was, now, after, start, end, prot, i, [b, c]);
  }

  lemma RightStep(was: seq<Area>, now: seq<Area>, after: seq<Area>, start: int, end: int, prot: int, i: nat, f: nat)
    requires AllSeparate(was) && Protected(was, now, start, end, prot, i) && i < |was| && was[i].used
      && was[i].start < start < was[i].end <= end && OnPage(start) && Int32(start)
    requires f < |was| && f != i && !now[f].used
    requires var a := was[i];
      after == now[i := a.(end := start)][f := Area(true, start, a.end, prot, a.flags, a.file,
        Wrap(a.offset + start - a.start))] && Int32(a.offset)
    ensures Protected(was, after, start, end, prot, i + 1)
  {
    var a := was[i];
    assert now[i] == a && Proper(now[i]);
    var b, c := Piece(a, a.start, start, a.prot), Piece(a, start, a.end, prot);
    WrapFits(a.offset);
    TwoPieces(now, i, f, b, c);
    TwoRecut(a, start, end, prot, start, a.prot, prot);
    ProtectedNext(was, now, after, start, end, prot, i, [b, c]);
  }

  lemma MiddleFree(now: seq<Area>, mid: seq<Area>, i: nat, f: nat, b: Area, c: Area)
    requires i < |now| && f < |now| && f != i && now[i].used && b.used && c.used && !now[f].used
      && mid == now[i := b][f := c] && FreeFrom(now, 0) >= 2
    ensures exists g :: 0 <= g < |mid| && !mid[g].used
  {
    FreeUpdate(now, i, b, 0);
    FreeUpdate(now[i := b], f, c, 0);
    var g := FreeSome(mid, 0);
  }

  lemma MiddlePieces(a: Area, start: int, end: int, prot: int)
    requires a.used && Int32(a.offset)
    ensures Piece(a, a.start, start, a.prot) == a.(end := start)
    ensures Piece(a, start, end, prot) == Area(true, start, end, prot, a.flags, a.file,
        Wrap(a.offset + start - a.start))
    ensures Piece(a, end, a.end, a.prot) == Area(true, end, a.end, a.prot, a.flags, a.file,
        Wrap(a.offset + end - a.start))
  {
    WrapFits(a.offset);
  }

  lemma MiddleStep(was: seq<Area>, now: seq<Area>, after: seq<Area>, start: int, end: int, prot: int, i: nat, f: nat,
                   g: nat)
    requires AllSeparate(was) && Protected(was, now, start, end, prot, i) && i < |was| && was[i].used
      && was[i].start < start < end < was[i].end
    requires OnPage(start) && OnPage(end) && Int32(start) && Int32(end) && f < |was| && g < |was| && f != i && g != i
      && g != f && !now[f].used && !now[g].used
    requires var a := was[i];
      Int32(a.offset)
      && after == now[i := a.(end := start)][f := Area(true, start, end, prot, a.flags, a.file,
        Wrap(a.offset + start - a.start))][g := Area(true, end, a.end, a.prot, a.flags, a.file,
          Wrap(a.offset + end - a.start))]
    ensures Protected(was, after, start, end, prot, i + 1)
  {
    var a := was[i];
    assert now[i] == a && Proper(now[i]);
    var b, c, d := Piece(a, a.start, start, a.prot), Piece(a, start, end, prot), Piece(a, end, a.end, a.prot);
    MiddlePieces(a, start, end, prot);
    assert after == now[i := b][f := c][g := d];
    ThreePieces(now, i, f, g, b, c, d);
    ThreeRecut(a, start, end, prot);
    assert Need(a, start, end) == 2;
    ProtectedNext(was, now, after, start, end, prot, i, [b, c, d]);
  }

  datatype Status = Done | Invalid | NoMemory

  datatype Refusal = Fine | BadArgument | NoRoom | BadFile | NoAccess | NotRetained
  datatype MapResult = Mapped(address: int) | Refused(why: Refusal)
  datatype File = File(kind: int, readable: bool, writable: bool)

  predicate Bit(x: int, n: int)
    requires n > 0
  {
    x / n % 2 == 1
  }

  predicate Fixed(flags: int) { Bit(flags, 16) }
  predicate Anonymous(flags: int) { Bit(flags, 32) }

  /** The map has gained exactly the pages from start to end. */
  ghost predicate Maps(was: seq<Area>, now: seq<Area>, start: int, end: int, prot: int, flags: int, file: int,
                       offset: int) {
    forall page, info :: Shows(now, page, info) <==>
      Shows(was, page, info) || (start <= page < end && info == Info(prot, flags, file, Wrap(offset + page - start)))
  }

  /** Areas on page boundaries that share no page with a range of pages lie apart from it. */
  lemma AreaClear(s: seq<Area>, a: Area)
    requires AllProper(s) && Proper(a) && a.used
      && forall page :: OnPage(page) && a.start <= page < a.end ==> !InAreas(s, page)
    ensures Clear(s, a)
  {
    forall k | 0 <= k < |s| ensures Separate(s[k], a) && Separate(a, s[k]) {
      assert Proper(s[k]);
      MeetingPage(s, k, a, Max(s[k].start, a.start));
    }
  }

  /** Two ranges that meet have the later start in common. */
  lemma MeetingPage(s: seq<Area>, k: nat, a: Area, page: int)
    requires k < |s| && page == Max(s[k].start, a.start)
    ensures s[k].used && page < s[k].end && page < a.end ==> InAreas(s, page) && a.start <= page < a.end
  {
    if s[k].used && page < s[k].end { assert Holds(s[k], page); }
  }

  lemma AddedShows(was: seq<Area>, slot: nat, a: Area)
    requires slot < |was| && !was[slot].used && a.used
    ensures Maps(was, was[slot := a], a.start, a.end, a.prot, a.flags, a.file, a.offset)
  {
    var now := was[slot := a];
    forall page, info
      ensures Shows(now, page, info) <==>
        Shows(was, page, info)
        || (a.start <= page < a.end && info == Info(a.prot, a.flags, a.file, Wrap(a.offset + page - a.start)))
    {
      FilledShows(was, slot, a, page, info);
    }
  }

  lemma AddedBreak(was: seq<Area>, now: seq<Area>, a: Area, lo: int, hi: int)
    requires BreakApart(was, lo, hi) && Maps(was, now, a.start, a.end, a.prot, a.flags, a.file, a.offset)
    requires forall page :: OnPage(page) && a.start <= page < a.end ==> !(lo <= page < PageAlignUp(hi))
    ensures BreakApart(now, lo, hi)
  {
    forall page | OnPage(page) && lo <= page < PageAlignUp(hi) ensures !InAreas(now, page) {
      ShowsIn(was, page);
      ShowsIn(now, page);
    }
  }

  function Stack(): Area { Area(true, STACK_PAGE, STACK_TOP - 4096, 3, 34, -1, 0) }
  function Unused(): Area { Area(false, 0, 0, 0, 0, -1, 0) }

  lemma {:induction false} NothingHeld(s: seq<Area>, n: nat, z: int)
    requires n <= |s| && forall i :: 0 <= i < |s| ==> s[i].file < 0
    ensures Held(s, n, z) == 0
  {
    if n > 0 { NothingHeld(s, n - 1, z); }
  }

  class Vm {
    const files: seq<File>
    const areas: array<Area>
    var mapped: set<int>
    var brkStart: int
    var brkEnd: int
    var refs: multiset<int>

    /** Areas lie apart, on page boundaries and apart from the break, and account for the file references held. */
    ghost predicate Valid()
      reads this, areas
    {
      && areas.Length == MAX_VMAS && AllSeparate(areas[..]) && AllProper(areas[..]) && Counted(refs, areas[..])
      && (forall p :: p in mapped ==> OnPage(p))
      && USER_BASE <= brkStart <= brkEnd < GUARD_PAGE && BreakApart(areas[..], brkStart, brkEnd)
    }

    /** A new program: nothing but the stack below its argument page, and a break that holds nothing. */
    constructor (imageEnd: int, fs: seq<File>)
      requires USER_BASE <= imageEnd < GUARD_PAGE
      ensures Valid() && mapped == {} && brkStart == brkEnd == imageEnd && files == fs
      ensures forall page :: InAreas(areas[..], page) <==> STACK_PAGE <= page < STACK_TOP - 4096
    {
      var a := new Area[MAX_VMAS](k => if k == 0 then Stack() else Unused());
      areas, mapped, brkStart, brkEnd, refs, files := a, {}, imageEnd, imageEnd, multiset{}, fs;
      new;
      assert forall k :: 0 <= k < MAX_VMAS ==> areas[..][k] == if k == 0 then Stack() else Unused();
      forall z: int ensures Held(areas[..], MAX_VMAS, z) == 0 { NothingHeld(areas[..], MAX_VMAS, z); }
      BreakEnd(imageEnd);
      assert areas[..][0] == Stack();
      forall page ensures InAreas(areas[..], page) <==> STACK_PAGE <= page < STACK_TOP - 4096 {
        if STACK_PAGE <= page < STACK_TOP - 4096 { assert Holds(areas[..][0], page); }
      }
    }

    method AreaSlot() returns (i: int)
      requires areas.Length == MAX_VMAS
      ensures i == -1 ==> forall k :: 0 <= k < MAX_VMAS ==> areas[k].used
      ensures i != -1 ==> 0 <= i < MAX_VMAS && !areas[i].used
    {
      i := 0;
      while i < MAX_VMAS
        invariant 0 <= i <= MAX_VMAS && forall k :: 0 <= k < i ==> areas[k].used
      {
        if !areas[i].used {
          return;
        }
        i := i + 1;
      }
      i := -1;
    }

    method SetArea(i: int, a: Area)
      requires 0 <= i < areas.Length
      modifies areas
      ensures areas[..] == old(areas[..])[i := a]
    {
      areas[i] := a;
    }

    /** Fills a free slot, taking a reference to the file. */
    method AreaAssign(slot: int, a: Area)
      requires 0 <= slot < areas.Length && !areas[slot].used && a.used && Counted(refs, areas[..])
      modifies areas, `refs
      ensures areas[..] == old(areas[..])[slot := a] && Counted(refs, areas[..])
    {
      CountedMore(refs, areas[..], slot, a);
      SetArea(slot, a);
      assert a.file < 0 ==> refs + FileOf(a) == refs;
      if a.file >= 0 {
        refs := refs + multiset{a.file};
      }
    }

    /** The area a page is in. */
    method AreaIndex(page: int) returns (i: int)
      ensures i == -1 <==> !InAreas(areas[..], page)
      ensures i != -1 ==> 0 <= i < areas.Length && Holds(areas[i], page) && forall k :: 0 <= k < i ==>
        !Holds(areas[k], page)
    {
      i := 0;
      while i < areas.Length
        invariant 0 <= i <= areas.Length && forall k :: 0 <= k < i ==> !Holds(areas[k], page)
      {
        if areas[i].used && page >= areas[i].start && page < areas[i].end {
          assert Holds(areas[..][i], page);
          return;
        }
        i := i + 1;
      }
      i := -1;
    }

    method PageInArea(page: int) returns (yes: bool)
      ensures yes <==> InAreas(areas[..], page)
    {
      var i := AreaIndex(page);
      yes := i >= 0;
    }

    method NeedsSplit(start: int, end: int) returns (yes: bool)
      ensures yes <==> exists k :: 0 <= k < areas.Length && Splits(areas[k], start, end)
    {
      yes := false;
      var i := 0;
      while i < areas.Length
        invariant 0 <= i <= areas.Length && (yes <==> exists k :: 0 <= k < i && Splits(areas[k], start, end))
      {
        if areas[i].used && start > areas[i].start && end < areas[i].end {
          yes := true;
        }
        i := i + 1;
      }
    }

    method UnmapPages(start: int, end: int)
      requires OnPage(start) && OnPage(end) && start <= end && forall p :: p in mapped ==> OnPage(p)
      modifies `mapped
      ensures forall p :: p in mapped <==> p in old(mapped) && !(start <= p < end && InAreas(areas[..], p))
    {
      var page := start;
      while page < end
        invariant OnPage(page) && start <= page <= end
        invariant forall p :: p in mapped <==> p in old(mapped) && !(start <= p < page && InAreas(areas[..], p))
        decreases end - page
      {
        var inside := PageInArea(page);
        if inside {
          mapped := mapped - {page};
        }
        NextPage(page, end);
        page := page + 4096;
      }
    }

    /** Moves the part of area i past the range to a free slot. */
    method SplitArea(start: int, end: int, i: nat) returns (split: int)
      requires areas.Length == MAX_VMAS && i < MAX_VMAS && Splits(areas[i], start, end) && Counted(refs, areas[..])
      requires exists k :: 0 <= k < MAX_VMAS && !areas[k].used
      modifies areas, `refs
      ensures 0 <= split < MAX_VMAS && !old(areas[split].used) && Counted(refs, areas[..])
      ensures areas[..] == old(areas[..])[split := Rest(old(areas[i]), end)][i := Trim(old(areas[i]), start, end)]
    {
      var a := areas[i];
      split := AreaSlot();
      AreaAssign(split, Area(true, end, a.end, a.prot, a.flags, a.file, Wrap(a.offset + end - a.start)));
      CountedSame(refs, areas[..], i, a.(end := start));
      SetArea(i, a.(end := start));
    }

    /** Takes the range out of an area it does not split. */
    method ShrinkArea(start: int, end: int, i: nat)
      requires areas.Length == MAX_VMAS && i < MAX_VMAS && !Splits(areas[i], start, end) && Counted(refs, areas[..])
      modifies areas, `refs
      ensures areas[..] == old(areas[..])[i := Trim(old(areas[i]), start, end)] && Counted(refs, areas[..])
    {
      var a := areas[i];
      if a.used && start <= a.start && end >= a.end {
        CountedLess(refs, areas[..], i, a.(used := false));
        assert a.file < 0 ==> refs - FileOf(a) == refs;
        if a.file >= 0 {
          refs := refs - multiset{a.file};
        }
        SetArea(i, a.(used := false));
      } else {
        CountedSame(refs, areas[..], i, Trim(a, start, end));
        if a.used && start <= a.start && end > a.start {
          SetArea(i, a.(offset := Wrap(a.offset + end - a.start), start := end));
        } else if a.used && start < a.end && end >= a.end {
          SetArea(i, a.(end := start));
        }
      }
    }

    method TrimArea(ghost was: seq<Area>, start: int, end: int, i: nat, ghost x: int,
                    ghost m: int) returns (ghost x': int, ghost m': int)
      requires areas.Length == MAX_VMAS && |was| == MAX_VMAS && i < MAX_VMAS && start < end && AllSeparate(was)
      requires Trimmed(was, areas[..], start, end, i, x, m) && Counted(refs, areas[..]) && SlotFor(was, start, end)
      modifies areas, `refs
      ensures Trimmed(was, areas[..], start, end, i + 1, x', m') && Counted(refs, areas[..])
    {
      x', m' := x, m;
      ghost var now := areas[..];
      TrimmedHere(was, now, start, end, i, x, m);
      if areas[i].used && start > areas[i].start && end < areas[i].end {
        var split := SplitArea(start, end, i);
        TrimmedSplit(was, now, start, end, i, m, split);
        x', m' := split, i;
      } else {
        ShrinkArea(start, end, i);
        TrimmedNext(was, now, start, end, i, x, m);
      }
    }

    method TrimAreas(start: int, end: int)
      requires Valid() && OnPage(start) && OnPage(end) && Int32(start) && Int32(end) && start < end
      requires SlotFor(areas[..], start, end)
      modifies areas, `refs
      ensures Valid()
        && forall page, info :: Shows(areas[..], page, info) <==>
        Shows(old(areas[..]), page, info) && !(start <= page < end)
    {
      ghost var was := areas[..];
      ghost var x, m := -1, 0;
      var i := 0;
      while i < MAX_VMAS
        invariant 0 <= i <= MAX_VMAS && Trimmed(was, areas[..], start, end, i, x, m) && Counted(refs, areas[..])
      {
        x, m := TrimArea(was, start, end, i, x, m);
        i := i + 1;
      }
      TrimmedAll(was, areas[..], start, end, x, m, brkStart, brkEnd);
    }

    method SlotsNeeded(start: int, end: int) returns (needed: int)
      ensures needed == NeedFrom(areas[..], start, end, 0)
    {
      needed := 0;
      var i := 0;
      while i < areas.Length
        invariant 0 <= i <= areas.Length
          && needed + NeedFrom(areas[..], start, end, i) == NeedFrom(areas[..], start, end, 0)
      {
        var a := areas[i];
        if a.used && start < a.end && end > a.start {
          if Max(start, a.start) > a.start {
            needed := needed + 1;
          }
          if Min(end, a.end) < a.end {
            needed := needed + 1;
          }
        }
        i := i + 1;
      }
    }

    method FreeAreaSlots() returns (count: int)
      ensures count == FreeFrom(areas[..], 0)
    {
      count := 0;
      var i := 0;
      while i < areas.Length
        invariant 0 <= i <= areas.Length && count + FreeFrom(areas[..], i) == FreeFrom(areas[..], 0)
      {
        if !areas[i].used {
          count := count + 1;
        }
        i := i + 1;
      }
    }

    method RangeInAreas(start: int, end: int) returns (yes: bool)
      requires OnPage(start) && OnPage(end) && start <= end
      ensures yes <==> InRange(areas[..], start, end)
    {
      var page := start;
      while page < end
        invariant OnPage(page) && start <= page <= end
          && forall p :: OnPage(p) && start <= p < page ==> InAreas(areas[..], p)
        decreases end - page
      {
        var inside := PageInArea(page);
        if !inside {
          return false;
        }
        NextPage(page, end);
        page := page + 4096;
      }
      yes := true;
    }

    /** Puts a second piece of area i in a free slot; the slot is there when one is counted. */
    method Carve(i: nat, b: Area, c: Area) returns (f: int)
      requires areas.Length == MAX_VMAS && i < MAX_VMAS && areas[i].used && b.used && c.used
        && FileOf(b) == FileOf(areas[i]) && Counted(refs, areas[..])
      requires FreeFrom(areas[..], 0) > 0
      modifies areas, `refs
      ensures 0 <= f < MAX_VMAS && f != i && !old(areas[f].used) && areas[..] == old(areas[..])[i := b][f := c]
        && Counted(refs, areas[..])
    {
      ghost var k := FreeSome(areas[..], 0);
      assert !areas[k].used;
      CountedSame(refs, areas[..], i, b);
      SetArea(i, b);
      assert areas[..][k] == old(areas[..])[k];
      f := AreaSlot();
      AreaAssign(f, c);
    }

    /** Gives the part of area i in the range the protection, cutting the area where the range does. */
    method ProtectArea(ghost was: seq<Area>, start: int, end: int, prot: int, i: nat)
      requires areas.Length == MAX_VMAS && |was| == MAX_VMAS && i < MAX_VMAS && OnPage(start) && OnPage(end)
        && Int32(start) && Int32(end) && start < end
      requires AllSeparate(was) && Protected(was, areas[..], start, end, prot, i) && Counted(refs, areas[..])
        && Overlaps(was[i], start, end)
      modifies areas, `refs
      ensures Protected(was, areas[..], start, end, prot, i + 1) && Counted(refs, areas[..])
    {
      ghost var now := areas[..];
      var a := areas[i];
      var from, to := Max(start, a.start), Min(end, a.end);
      assert a == was[i] == now[i] && Proper(now[i]);
      assert FreeFrom(now, 0) >= Need(was[i], start, end);
      if from == a.start && to == a.end {
        CountedSame(refs, now, i, a.(prot := prot));
        SetArea(i, a.(prot := prot));
        WholeStep(was, now, start, end, prot, i);
      } else if from == a.start {
        var slot := Carve(i, a.(start := to, offset := Wrap(a.offset + to - a.start)),
            Area(true, a.start, to, prot, a.flags, a.file, a.offset));
        LeftStep(was, now, areas[..], start, end, prot, i, slot);
      } else if to == a.end {
        var slot := Carve(i, a.(end := from),
            Area(true, from, a.end, prot, a.flags, a.file, Wrap(a.offset + from - a.start)));
        RightStep(was, now, areas[..], start, end, prot, i, slot);
      } else {
        var slot := Carve(i, a.(end := from),
            Area(true, from, to, prot, a.flags, a.file, Wrap(a.offset + from - a.start)));
        ghost var mid := areas[..];
        MiddleFree(now, mid, i, slot, a.(end := from),
            Area(true, from, to, prot, a.flags, a.file, Wrap(a.offset + from - a.start)));
        var right := AreaSlot();
        AreaAssign(right, Area(true, to, a.end, a.prot, a.flags, a.file, Wrap(a.offset + to - a.start)));
        MiddleStep(was, now, areas[..], start, end, prot, i, slot, right);
      }
    }

    method ProtectAreas(start: int, end: int, prot: int)
      requires Valid() && OnPage(start) && OnPage(end) && Int32(start) && Int32(end) && start < end
      requires NeedFrom(areas[..], start, end, 0) <= FreeFrom(areas[..], 0)
      modifies areas, `refs
      ensures Valid()
        && forall page, info :: Shows(areas[..], page, info) <==>
        Reprotected(old(areas[..]), start, end, prot, page, info)
    {
      var original := areas[..];
      ProtectedStart(original, start, end, prot);
      var i := 0;
      while i < MAX_VMAS
        invariant 0 <= i <= MAX_VMAS && Protected(original, areas[..], start, end, prot, i) && Counted(refs, areas[..])
      {
        assert original[i].used ==> areas[..][i] == original[i];
        if original[i].used && start < areas[i].end && end > areas[i].start {
          ProtectArea(original, start, end, prot, i);
        } else {
          ProtectedSkip(original, areas[..], start, end, prot, i);
        }
        i := i + 1;
      }
      ProtectedAll(original, areas[..], start, end, prot, brkStart, brkEnd);
    }

    /** Changes the protection of the pages in the range and nothing else; fails, changing nothing, unless all are
        in areas and there are slots for the cuts. */
    method Mprotect(address: int, length: int, prot: int) returns (status: Status)
      requires Valid() && Int32(address) && Int32(length)
      modifies areas, `refs
      ensures Valid()
      ensures status == Invalid <==> !(OnPage(address) && length > 0 && 0 <= prot <= 7)
      ensures status != Done ==> areas[..] == old(areas[..]) && refs == old(refs)
      ensures status != Invalid ==>
        Reprotects(status, old(areas[..]), areas[..], address, RangeEnd(address, length), prot)
    {
      if !OnPage(address) || length <= 0 || !(0 <= prot <= 7) {
        return Invalid;
      }
      var start, end := address, Wrap(address + PageAlignUp(length));
      if address >= USER_BASE { EndOf(address, length, PageAlignUp(length), end, STACK_TOP); }
      if start < USER_BASE || end < start || end > STACK_TOP {
        OutOfBounds(areas[..], address, RangeEnd(address, length), prot);
        return NoMemory;
      }
      status := ProtectRange(start, end, prot);
    }

    method ProtectRange(start: int, end: int, prot: int) returns (status: Status)
      requires Valid() && OnPage(start) && OnPage(end) && USER_BASE <= start < end <= STACK_TOP
      modifies areas, `refs
      ensures Valid() && status != Invalid && (status == NoMemory ==> areas[..] == old(areas[..]) && refs == old(refs))
      ensures Reprotects(status, old(areas[..]), areas[..], start, end, prot)
    {
      var inside := RangeInAreas(start, end);
      if !inside {
        return NoMemory;
      }
      var needed := SlotsNeeded(start, end);
      var free := FreeAreaSlots();
      if needed > free {
        return NoMemory;
      }
      ProtectAreas(start, end, prot);
      status := Done;
    }

    // ---- mapping ----

    ghost predicate Clean(start: int, end: int)
      reads this, areas
    {
      forall page :: OnPage(page) && start <= page < end ==> PageFree(page)
    }

    /** Neither mapped nor in an area nor part of the break. */
    ghost predicate PageFree(page: int)
      reads this, areas
    {
      page !in mapped && !InAreas(areas[..], page) && !(brkStart <= page < PageAlignUp(brkEnd))
    }

    ghost predicate Room(s: int, pages: int)
      reads this, areas
    {
      Clean(s, s + pages)
    }

    ghost predicate NoRoomAt(lo: int, hi: int, pages: int)
      reads this, areas
    {
      forall s :: OnPage(s) && lo <= s < hi ==> !Room(s, pages)
    }

    method RangeFree(start: int, end: int) returns (yes: bool)
      requires OnPage(start) && OnPage(end)
      ensures yes <==> Clean(start, end)
    {
      var page := start;
      while page < end
        invariant OnPage(page) && start <= page && (page <= end || page == start) && Clean(start, page)
        decreases end - page
      {
        var inside := PageInArea(page);
        if page in mapped || inside || (page >= brkStart && page < PageAlignUp(brkEnd)) {
          assert !PageFree(page);
          return false;
        }
        NextPage(page, end);
        page := page + 4096;
      }
      yes := true;
    }

    /**
     * The first place past the break with room for the length, or 0. A length so great that the sum wraps
     * round is given the place right after the break, with an end before its start.
     */
    method FindMapping(length: int, ghost pages: int) returns (address: int, ghost first: int)
      requires USER_BASE <= brkEnd < GUARD_PAGE && 0 < pages <= 0x8000_0000 && OnPage(pages) && length == Wrap(pages)
      ensures first == PageAlignUp(brkEnd) && OnPage(first) && brkEnd <= first <= GUARD_PAGE
      ensures first + pages < 0x8000_0000 && address != 0 ==>
        OnPage(address) && first <= address && address + pages <= GUARD_PAGE && Room(address, pages)
      ensures first + pages < 0x8000_0000 ==>
        NoRoomAt(first, if address == 0 then GUARD_PAGE - pages + 1 else address, pages)
      ensures first + pages >= 0x8000_0000 ==> address == first
    {
      BreakEnd(brkEnd);
      var start := PageAlignUp(brkEnd);
      first := start;
      var end := FirstPlace(start, length, pages);
      address := Search(start, end, length, pages);
    }

    method Search(first: int, firstEnd: int, length: int, ghost pages: int) returns (address: int)
      requires Candidate(first, first, pages, firstEnd) && EndIs(first, length, firstEnd)
      ensures first + pages < 0x8000_0000 && address != 0 ==>
        OnPage(address) && first <= address && address + pages <= GUARD_PAGE && Room(address, pages)
      ensures first + pages < 0x8000_0000 ==>
        NoRoomAt(first, if address == 0 then GUARD_PAGE - pages + 1 else address, pages)
      ensures first + pages >= 0x8000_0000 ==> address == first && firstEnd < address
    {
      var start, end := first, firstEnd;
      while end <= GUARD_PAGE
        invariant Candidate(first, start, pages, end) && EndIs(start, length, end)
          && (start == first ==> end == firstEnd)
        invariant first + pages < 0x8000_0000 ==> NoRoomAt(first, start, pages)
        decreases GUARD_PAGE + 4096 - start
      {
        var free := RangeFree(start, end);
        if free {
          return start;
        }
        start, end := NextPlace(first, start, length, pages, end);
      }
      address := 0;
    }

    /**
     * Removes exactly the pages of the range from the map, and their frames from the page table; fails,
     * changing nothing, when the range is bad or a split finds no slot.
     */
    method Munmap(address: int, length: int) returns (status: Status)
      requires Valid() && Int32(address) && Int32(length)
      modifies this, areas
      ensures Valid() && brkStart == old(brkStart) && brkEnd == old(brkEnd)
      ensures status == Invalid <==>
        !(OnPage(address) && length > 0 && address >= USER_BASE && RangeEnd(address, length) <= GUARD_PAGE)
      ensures status != Done ==> areas[..] == old(areas[..]) && mapped == old(mapped) && refs == old(refs)
      ensures status != Invalid ==>
        Unmaps(status, old(areas[..]), areas[..], old(mapped), mapped, address, RangeEnd(address, length))
    {
      if !OnPage(address) || length <= 0 {
        return Invalid;
      }
      var start, end := address, Wrap(address + PageAlignUp(length));
      if address >= USER_BASE { EndOf(address, length, PageAlignUp(length), end, GUARD_PAGE); }
      if start < USER_BASE || end < start || end > GUARD_PAGE {
        return Invalid;
      }
      status := UnmapRange(start, end);
    }

    method UnmapRange(start: int, end: int) returns (status: Status)
      requires Valid() && OnPage(start) && OnPage(end) && USER_BASE <= start < end <= GUARD_PAGE
      modifies this, areas
      ensures Valid() && brkStart == old(brkStart) && brkEnd == old(brkEnd) && status != Invalid
      ensures status != Done ==> areas[..] == old(areas[..]) && mapped == old(mapped) && refs == old(refs)
      ensures Unmaps(status, old(areas[..]), areas[..], old(mapped), mapped, start, end)
    {
      var split := NeedsSplit(start, end);
      if split {
        var slot := AreaSlot();
        if slot < 0 {
          return NoMemory;
        }
      }
      UnmapPages(start, end);
      TrimAreas(start, end);
      status := Done;
    }

    /** The kernel finds a place: there is one past the break, or the sum of break and length wraps round. */
    ghost predicate HasRoom(pages: int)
      reads this, areas
    {
      var first := PageAlignUp(brkEnd);
      first + pages >= 0x8000_0000 || !NoRoomAt(first, GUARD_PAGE - pages + 1, pages)
    }

    /** The place asked for is free and within bounds. */
    ghost predicate Available(address: int, pages: int)
      reads this, areas
    {
      OnPage(address) && USER_BASE <= address && address + pages <= GUARD_PAGE && Room(address, pages)
    }

    predicate FileFits(prot: int, flags: int, fd: int, offset: int) {
      && 0 <= fd < NFD && fd < |files| && files[fd].kind != 0 && OnPage(offset) && offset >= 0 && files[fd].readable
      && (Bit(flags, 1) && Bit(prot, 2) ==> files[fd].writable)
    }

    /** A request is granted: its arguments are in order, there is a place and a slot, and of a file, that it
        may be mapped so and a reference is to be had. */
    ghost predicate Grants(address: int, length: int, prot: int, flags: int, fd: int, offset: int, retained: int)
      reads this, areas
    {
      && length > 0 && 0 <= prot <= 7 && Bit(flags, 1) != Bit(flags, 2)
      && (if Fixed(flags) then Available(address, RangeEnd(0, length)) else HasRoom(RangeEnd(0, length)))
      && (Anonymous(flags) || (FileFits(prot, flags, fd, offset) && retained >= 0))
      && exists k :: 0 <= k < areas.Length && !areas[k].used
    }

    /** The place asked for, or the first one with room past the break; end is where the machine takes the mapping
        to end. */
    method Choose(address: int, length: int, fixed: bool, ghost pages: int) returns (why: Refusal, place: int, end: int)
      requires Int32(address) && USER_BASE <= brkEnd < GUARD_PAGE && 0 < pages <= 0x8000_0000 && OnPage(pages)
        && length == Wrap(pages)
      ensures why == Fine || why == BadArgument || why == NoRoom
      ensures why == Fine ==>
        OnPage(place) && OnPage(end) && place >= USER_BASE && Int32(place) && Int32(end) && Clean(place, end)
      ensures why == Fine && fixed ==> place == address && end == place + pages <= GUARD_PAGE
      ensures why == Fine && !fixed ==>
        if PageAlignUp(brkEnd) + pages < 0x8000_0000 then end == place + pages <= GUARD_PAGE else end < place
      ensures why == BadArgument <==>
        fixed && !Available(address, pages)
      ensures why == NoRoom <==> !fixed && !HasRoom(pages)
    {
      why, place, end := Fine, address, 0;
      if fixed {
        end := Wrap(address + length);
        if OnPage(address) && address >= USER_BASE { FixedEnd(address, length, pages, end); }
        if !OnPage(address) || address < USER_BASE || end < address || end > GUARD_PAGE {
          return BadArgument, address, end;
        }
        var free := RangeFree(address, end);
        if !free {
          why := BadArgument;
        }
      } else {
        ghost var first;
        place, first := FindMapping(length, pages);
        if place == 0 {
          return NoRoom, place, end;
        }
        end := EndOfPlace(first, place, length, pages);
      }
    }

    /**
     * Maps a free range: adds its own pages to the map, with file offsets following, and changes no other.
     * The range is whole pages covering the length, unless it is left to the kernel to choose and the
     * length is so great that the break plus it wraps round: then no page is added.
     */
    method Mmap(address: int, length: int, prot: int, flags: int, fd: int, offset: int,
                retained: int) returns (r: MapResult, ghost end: int)
      requires Valid() && Int32(address) && Int32(length) && Int32(offset)
      modifies areas, `refs
      ensures Valid()
      ensures r.Refused? ==> areas[..] == old(areas[..]) && refs == old(refs) && r.why != Fine
      ensures r.Mapped? ==>
        Maps(old(areas[..]), areas[..], r.address, end, prot, flags, if Anonymous(flags) then -1 else retained, offset)
      ensures r.Mapped? ==> r.address >= USER_BASE && old(Clean(r.address, end))
      ensures r.Mapped? && Fixed(flags) ==> r.address == address && end == RangeEnd(address, length)
      ensures r.Mapped? && !Fixed(flags) ==>
        if PageAlignUp(brkEnd) + RangeEnd(0, length) < 0x8000_0000 then end == RangeEnd(r.address, length)
        else end < r.address
      ensures length <= 0 || !(0 <= prot <= 7) || Bit(flags, 1) == Bit(flags, 2) ==> r == Refused(BadArgument)
      ensures r.Mapped? <==> old(Grants(address, length, prot, flags, fd, offset, retained))
    {
      end := 0;
      if length <= 0 || !(0 <= prot <= 7) || Bit(flags, 1) == Bit(flags, 2) {
        return Refused(BadArgument), end;
      }
      ghost var pages := RangeEnd(0, length);
      var aligned := PageAlignUp(length);
      AlignedIs(length, pages);
      var why, place, last := Choose(address, aligned, Fixed(flags), pages);
      if why != Fine {
        return Refused(why), end;
      }
      if !Anonymous(flags) {
        why := CheckFile(prot, flags, fd, offset);
        if why != Fine {
          return Refused(why), end;
        }
      }
      var slot := AreaSlot();
      if slot < 0 {
        return Refused(NoRoom), end;
      }
      if !Anonymous(flags) && retained < 0 {
        return Refused(NotRetained), end;
      }
      end := last;
      AddArea(slot, Area(true, place, last, prot, flags, if Anonymous(flags) then -1 else retained, offset));
      r := Mapped(place);
    }

    /** A request for all but a byte of 2 GB is granted wherever there is a slot, and adds no page. */
    method MmapHuge() returns (r: MapResult)
      requires Valid() && exists k :: 0 <= k < areas.Length && !areas[k].used
      modifies areas, `refs
      ensures Valid() && r.Mapped? && forall page :: InAreas(areas[..], page) <==> InAreas(old(areas[..]), page)
    {
      ghost var end;
      BreakEnd(brkEnd);
      r, end := Mmap(0, 0x7fff_ffff, 3, 34, -1, 0, -1);
      forall page ensures InAreas(areas[..], page) <==> InAreas(old(areas[..]), page) {
        ShowsIn(areas[..], page);
        ShowsIn(old(areas[..]), page);
      }
    }

    method CheckFile(prot: int, flags: int, fd: int, offset: int) returns (why: Refusal)
      ensures why == Fine <==> FileFits(prot, flags, fd, offset)
    {
      if fd < 0 || fd >= NFD || fd >= |files| || files[fd].kind == 0 {
        return BadFile;
      }
      if !OnPage(offset) || offset < 0 {
        return BadArgument;
      }
      if !files[fd].readable {
        return NoAccess;
      }
      if Bit(flags, 1) && Bit(prot, 2) && !files[fd].writable {
        return NoAccess;
      }
      why := Fine;
    }

    /** Fills a free slot with an area over free pages. */
    method AddArea(slot: int, a: Area)
      requires Valid() && 0 <= slot < MAX_VMAS && !areas[slot].used && a.used && Proper(a) && Clean(a.start, a.end)
      modifies areas, `refs
      ensures Valid() && Maps(old(areas[..]), areas[..], a.start, a.end, a.prot, a.flags, a.file, a.offset)
    {
      ghost var was := areas[..];
      AreaClear(was, a);
      AreaAssign(slot, a);
      FillSeparate(was, slot, a);
      AddedShows(was, slot, a);
      AddedBreak(was, areas[..], a, brkStart, brkEnd);
    }

    // ---- the break ----

    method UnmapBreak(start: int, end: int)
      requires OnPage(start) && OnPage(end) && start <= end && forall p :: p in mapped ==> OnPage(p)
      modifies `mapped
      ensures forall p :: p in mapped <==> p in old(mapped) && !(start <= p < end)
    {
      var page := start;
      while page < end
        invariant OnPage(page) && start <= page <= end
          && forall p :: p in mapped <==> p in old(mapped) && !(start <= p < page)
        decreases end - page
      {
        mapped := mapped - {page};
        NextPage(page, end);
        page := page + 4096;
      }
    }

    /** Moves the break when the pages it takes in are free; giving pages back unmaps them, and none of an area. */
    method Brk(address: int) returns (r: int)
      requires Valid() && Int32(address)
      modifies `mapped, `brkEnd
      ensures Valid()
      ensures if address == 0 then r == old(brkEnd) else r == address || r == -1
      ensures (address == 0 || r == -1) ==> mapped == old(mapped) && brkEnd == old(brkEnd)
      ensures address != 0 && r != -1 ==> brkEnd == address && forall p :: p in mapped <==>
        p in old(mapped) && !(PageAlignUp(address) <= p < PageAlignUp(old(brkEnd)))
      ensures address != 0 && brkStart <= address < GUARD_PAGE && r == -1 ==>
        exists page :: PageAlignUp(brkEnd) <= page < PageAlignUp(address) && !PageFree(page)
      ensures forall p :: p in old(mapped) && InAreas(areas[..], p) ==> p in mapped
    {
      if address == 0 {
        return brkEnd;
      }
      if address < brkStart || address >= GUARD_PAGE {
        return -1;
      }
      var oldEnd, newEnd := PageAlignUp(brkEnd), PageAlignUp(address);
      BreakEnd(brkEnd);
      BreakEnd(address);
      if newEnd > oldEnd {
        var free := RangeFree(oldEnd, newEnd);
        if !free {
          return -1;
        }
      } else {
        UnmapBreak(newEnd, oldEnd);
      }
      brkEnd := address;
      r := address;
    }
  }

  lemma ProtectedAll(was: seq<Area>, now: seq<Area>, start: int, end: int, prot: int, lo: int, hi: int)
    requires AllSeparate(was) && BreakApart(was, lo, hi) && Protected(was, now, start, end, prot, |was|)
    ensures BreakApart(now, lo, hi)
    ensures forall page, info :: Shows(now, page, info) <==> Reprotected(was, start, end, prot, page, info)
  {
    forall page, info ensures Shows(now, page, info) <==> Reprotected(was, start, end, prot, page, info) {
      ShowsAsIs(was, start, end, prot, page, info);
    }
    forall page | OnPage(page) && lo <= page < PageAlignUp(hi) ensures !InAreas(now, page) {
      ShowsIn(was, page);
      ShowsIn(now, page);
    }
  }

  /** The page showed the same with some protection, and with its own when it is outside the range. */
  ghost predicate Reprotected(was: seq<Area>, start: int, end: int, prot: int, page: int, info: Info) {
    if start <= page < end then info.prot == prot && exists p ::
      Shows(was, page, info.(prot := p)) else Shows(was, page, info)
  }

  lemma ShowsAsIs(was: seq<Area>, start: int, end: int, prot: int, page: int, info: Info)
    ensures ShowsAs(was, start, end, prot, |was|, page, info) <==> Reprotected(was, start, end, prot, page, info)
  {
    if ShowsAs(was, start, end, prot, |was|, page, info) {
      var k :| ShowsFrom(was, start, end, prot, |was|, k, page, info);
      assert ShowsAt(was, k, page, InfoAt(was[k], page));
      assert info.(prot := was[k].prot) == InfoAt(was[k], page);
    }
    if Reprotected(was, start, end, prot, page, info) {
      var p :| Shows(was, page, info.(prot := p)) && (start <= page < end || p == info.prot);
      var k :| 0 <= k < |was| && ShowsAt(was, k, page, info.(prot := p));
      assert ShowsFrom(was, start, end, prot, |was|, k, page, info);
    }
  }

  lemma NextPage(page: int, end: int)
    requires OnPage(page) && OnPage(end) && page < end
    ensures OnPage(page + 4096) && page + 4096 <= end && forall p :: OnPage(p) && page <= p < page + 4096 ==> p == page
  {
  }

  /** When the machine's end passes the checks it is the true end of the range. */
  lemma EndOf(address: int, length: int, up: int, end: int, top: int)
    requires USER_BASE <= address < 0x8000_0000 && 0 < length < 0x8000_0000 && 0 < top < 0x1000_0000 && OnPage(address)
    requires up == PageAlignUp(length) && end == Wrap(address + up)
    ensures end < address || end > top <==> RangeEnd(address, length) > top
    ensures RangeEnd(address, length) <= top ==> end == RangeEnd(address, length) > address && OnPage(end)
  {
    var pages := LengthUp(length, up);
    EndCases(address, pages, up, end, top);
    assert RangeEnd(address, length) == address + pages;
  }

  lemma LengthUp(length: int, up: int) returns (pages: int)
    requires 0 < length < 0x8000_0000 && up == PageAlignUp(length)
    ensures pages == (length + 4095) / 4096 * 4096 && OnPage(pages) && 0 < pages <= 0x8000_0000
    ensures up == if pages < 0x8000_0000 then pages else -0x8000_0000
  {
    pages := (length + 4095) / 4096 * 4096;
    FloorIs(length + 4095);
    if length + 4095 < 0x8000_0000 {
      WrapFits(length + 4095);
    } else {
      WrapDown(length + 4095);
      FloorIs(length + 4095 - 0x1_0000_0000);
    }
  }

  lemma FloorIs(x: int)
    ensures Floor(x) == x / 4096 * 4096
  {
  }

  lemma EndCases(address: int, pages: int, up: int, end: int, top: int)
    requires USER_BASE <= address < 0x8000_0000 && 0 < pages <= 0x8000_0000 && OnPage(address) && OnPage(pages)
      && 0 < top < 0x1000_0000
    requires up == (if pages < 0x8000_0000 then pages else -0x8000_0000) && end == Wrap(address + up)
    ensures end < address || end > top <==> address + pages > top
    ensures address + pages <= top ==> end == address + pages > address && OnPage(end)
  {
    if pages == 0x8000_0000 {
      WrapFits(address - 0x8000_0000);
    } else if address + pages < 0x8000_0000 {
      WrapFits(address + pages);
    } else {
      WrapDown(address + pages);
    }
  }

  lemma WrapDown(x: int)
    requires 0x8000_0000 <= x < 0x1_8000_0000
    ensures Wrap(x) == x - 0x1_0000_0000
  {
  }

  lemma BreakEnd(hi: int)
    requires USER_BASE <= hi < GUARD_PAGE
    ensures OnPage(PageAlignUp(hi)) && hi <= PageAlignUp(hi) < hi + 4096
  {
    WrapFits(hi + 4095);
    FloorOn(hi + 4095);
  }

  lemma FloorOn(x: int)
    ensures OnPage(Floor(x)) && x - 4096 < Floor(x) <= x
  {
    var q := x / 4096;
    assert Floor(x) == q * 4096;
  }

  /** A place tried: the machine's end is the true one, unless the very first wraps round to before its start. */
  ghost predicate Candidate(first: int, start: int, pages: int, end: int) {
    && OnPage(start) && OnPage(end) && USER_BASE <= first <= start && 0 < pages
    && if first + pages < 0x8000_0000 then end == start + pages
    && (start == first || start + pages <= GUARD_PAGE + 4096)
      else start == first && end < start <= GUARD_PAGE
  }

  ghost predicate EndIs(start: int, length: int, end: int) {
    forall z: int :: Shown(z, start, end) ==> end == Wrap(start + length)
  }

  method FirstPlace(first: int, length: int, ghost pages: int) returns (end: int)
    requires USER_BASE <= first <= GUARD_PAGE && OnPage(first) && 0 < pages <= 0x8000_0000 && OnPage(pages)
      && length == Wrap(pages)
    ensures Candidate(first, first, pages, end) && EndIs(first, length, end)
  {
    end := Wrap(first + length);
    if pages == 0x8000_0000 { WrapDown(pages); } else { WrapFits(pages); }
    if first + pages < 0x8000_0000 {
      WrapFits(first + pages);
    } else if pages < 0x8000_0000 {
      WrapDown(first + pages);
    } else {
      WrapFits(first - 0x8000_0000);
    }
  }

  method NextPlace(ghost first: int, start: int, length: int, ghost pages: int,
                   ghost end: int) returns (start': int, end': int)
    requires Candidate(first, start, pages, end) && first + pages < 0x8000_0000 && end <= GUARD_PAGE
      && EndIs(start, length, end)
    ensures start' == start + 4096 && Candidate(first, start', pages, end') && EndIs(start', length, end')
    ensures forall s :: OnPage(s) && start <= s < start + 4096 ==> s == start
  {
    assert Shown(0, start, end);
    start' := Wrap(start + 4096);
    WrapFits(start + 4096);
    WrapNext(start + length);
    end' := Wrap(start' + length);
  }

  lemma WrapNext(x: int)
    requires Wrap(x) <= GUARD_PAGE
    ensures Wrap(x + 4096) == Wrap(x) + 4096
  {
  }

  lemma AlignedIs(length: int, pages: int)
    requires 0 < length < 0x8000_0000 && pages == RangeEnd(0, length)
    ensures OnPage(pages) && 0 < pages <= 0x8000_0000 && PageAlignUp(length) == Wrap(pages)
  {
    var p := LengthUp(length, PageAlignUp(length));
    if pages < 0x8000_0000 { WrapFits(pages); } else { WrapDown(pages); }
  }

  lemma FixedEnd(address: int, length: int, pages: int, end: int)
    requires OnPage(address) && USER_BASE <= address < 0x8000_0000 && 0 < pages <= 0x8000_0000 && OnPage(pages)
      && length == Wrap(pages) && end == Wrap(address + length)
    ensures end < address || end > GUARD_PAGE <==> address + pages > GUARD_PAGE
    ensures address + pages <= GUARD_PAGE ==> end == address + pages && OnPage(end)
  {
    if pages < 0x8000_0000 { WrapFits(pages); } else { WrapDown(pages); }
    EndCases(address, pages, length, end, GUARD_PAGE);
  }

  method EndOfPlace(ghost first: int, place: int, length: int, ghost pages: int) returns (end: int)
    requires OnPage(place) && USER_BASE <= first <= GUARD_PAGE && 0 < pages <= 0x8000_0000 && OnPage(pages)
      && length == Wrap(pages)
    requires if first + pages < 0x8000_0000 then first <= place && place + pages <= GUARD_PAGE else place == first
    ensures OnPage(end) && Int32(end) && if first + pages < 0x8000_0000 then end == place + pages else end < place
  {
    end := Wrap(place + length);
    if pages < 0x8000_0000 { WrapFits(pages); } else { WrapDown(pages); }
    if first + pages < 0x8000_0000 {
      WrapFits(place + pages);
    } else if pages < 0x8000_0000 {
      WrapDown(place + pages);
    } else {
      WrapFits(place - 0x8000_0000);
    }
  }
}
