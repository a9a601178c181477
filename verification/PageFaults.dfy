/** Page faults, decided by the areas and the break of the process. */
module PageFaults {
  import opened FrameCounts
  import opened FrameMemory
  import opened VmAreas
  import opened WriteBack

  /** What an area says of a page, as far as a fault asks. */
  function MappingOf(info: Info): Mapping {
    Mapping(info.prot == 0, Bit(info.prot, 2), Anonymous(info.flags), Bit(info.flags, 1), Bit(info.flags, 2))
  }

  /** The part of a file a page shows, with the number of bytes the file has there; which object of which file
      system a file is, is given. */
  function PartOf(info: Info, identity: map<int, (int, int)>, length: int): Cached {
    var id := if info.file in identity then identity[info.file] else (-1, -1);
    Cached(id.0, id.1, info.offset, length, false)
  }

  /** A page read from a file: zeros where the file has ended. */
  function Padded(content: Page): (p: Page)
    ensures |p| >= 4096 && Head(p, |content|) == content && (|content| <= 4096 ==> |p| == 4096)
    ensures forall i :: |content| <= i < |p| ==> p[i] == 0
  {
    content + Zero()[if |content| <= 4096 then |content| else 4096..]
  }

  /** The first area from i on that holds a page, or -1. */
  function FindArea(s: seq<Area>, page: int, i: nat): int
    requires i <= |s|
    decreases |s| - i
  {
    if i == |s| then -1 else if Holds(s[i], page) then i else FindArea(s, page, i + 1)
  }

  lemma {:induction false} FindAreaIs(s: seq<Area>, page: int, i: nat)
    requires i <= |s|
    ensures var k := FindArea(s, page, i);
      if k == -1 then forall j :: i <= j < |s| ==> !Holds(s[j], page)
      else i <= k < |s| && Holds(s[k], page) && forall j :: i <= j < k ==> !Holds(s[j], page)
    decreases |s| - i
  {
    if i < |s| && !Holds(s[i], page) { FindAreaIs(s, page, i + 1); }
  }

  function AreaFor(s: seq<Area>, page: int): Mapping {
    var k := FindArea(s, page, 0);
    if 0 <= k < |s| then MappingOf(InfoAt(s[k], page)) else Unmapped
  }

  function PartFor(s: seq<Area>, identity: map<int, (int, int)>, page: int, length: int): Cached {
    var k := FindArea(s, page, 0);
    if 0 <= k < |s| then PartOf(InfoAt(s[k], page), identity, length)
    else Cached(-1, -1, 0, length, false)
  }

  /** The search finds what the areas show of a page. */
  lemma AreaShown(s: seq<Area>, identity: map<int, (int, int)>, page: int, info: Info, length: int)
    requires AllSeparate(s)
    ensures Shows(s, page, info) ==>
      AreaFor(s, page) == MappingOf(info) && PartFor(s, identity, page, length) == PartOf(info, identity, length)
    ensures Shows(s, page, info) && info.file in identity ==>
      PartFor(s, identity, page, length) ==
        Cached(identity[info.file].0, identity[info.file].1, info.offset, length, false)
    ensures AreaFor(s, page).Unmapped? <==> !InAreas(s, page)
  {
    FindAreaIs(s, page, 0);
    var k := FindArea(s, page, 0);
    if k != -1 {
      assert ShowsAt(s, k, page, InfoAt(s[k], page));
      assert Shows(s, page, InfoAt(s[k], page));
      if Shows(s, page, info) { OneInfo(s, page, info, InfoAt(s[k], page)); }
    } else if Shows(s, page, info) {
      ShowsIn(s, page);
    }
  }

  /** What the areas say of a page decides a fault: protection 0 forbids everything and bit 2 allows writing;
      flags 1, 2 and 32 make it shared, private and anonymous; outside the areas the break decides. */
  lemma FaultMeans(s: seq<Area>, page: int, info: Info, inBreak: bool, write: bool)
    requires AllSeparate(s)
    ensures Shows(s, page, info) ==>
      && var area, writable, anonymous := AreaFor(s, page), info.prot / 2 % 2 == 1, info.flags / 32 % 2 == 1;
      && (Permits(area, inBreak, write) <==> info.prot != 0 && (write ==> writable))
      && (Writes(area) <==> writable) && (Anon(area) <==> anonymous)
      && FirstBits(area) == if anonymous then Bits(true, writable, false, false)
          else if info.flags % 2 == 1 then Bits(true, false, false, writable)
          else Bits(true, false, writable && info.flags / 2 % 2 == 1, false)
    ensures !InAreas(s, page) ==>
      && var area := AreaFor(s, page);
      && (Permits(area, inBreak, write) <==> inBreak) && Writes(area) && Anon(area)
      && FirstBits(area) == Bits(true, true, false, false)
  {
    AreaShown(s, map[], page, info, 0);
  }

  method Lookup(vm: Vm, identity: map<int, (int, int)>, page: int, length: int) returns (area: Mapping, part: Cached)
    ensures area == AreaFor(vm.areas[..], page) && part == PartFor(vm.areas[..], identity, page, length)
  {
    var i := vm.AreaIndex(page);
    ghost var s, k := vm.areas[..], FindArea(vm.areas[..], page, 0);
    FindAreaIs(s, page, 0);
    assert forall j :: 0 <= j < |s| ==> s[j] == vm.areas[j];
    assert i == k;
    area, part := Unmapped, Cached(-1, -1, 0, length, false);
    if i != -1 {
      var info := InfoAt(vm.areas[i], page);
      area, part := MappingOf(info), PartOf(info, identity, length);
    }
  }

  /** A fault at an address is resolved exactly as what the areas show of its page permits, or else the break;
      no other page of any process changes. */
  method HandlePageFault(mem: Memory, vm: Vm, identity: map<int, (int, int)>, pd: int, address: int, write: bool,
                         readable: bool, content: Page) returns (ok: bool)
    requires mem.Valid() && vm.Valid() && Dir(pd) in mem.held
    requires var page := Floor(address);
      var area, part, n := AreaFor(vm.areas[..], page), PartFor(vm.areas[..], identity, page, |content|), page / 4096;
      Entry(pd, n) !in mem.held
        && mem.Resolves(pd, n, write, area, vm.brkStart <= page < vm.brkEnd, part, readable) ==>
        mem.TableFits(pd, n, area, part)
    modifies mem
    ensures mem.Valid()
      && Untouched(old(mem.held), old(mem.data), old(mem.bits), mem.held, mem.data, mem.bits,
        Entry(pd, Floor(address) / 4096))
    ensures var page := Floor(address);
      ok <==>
        old(mem.Resolves(pd, page / 4096, write, AreaFor(vm.areas[..], page), vm.brkStart <= page < vm.brkEnd,
                               PartFor(vm.areas[..], identity, page, |content|), readable))
    ensures ok ==> Entry(pd, Floor(address) / 4096) in mem.held
    ensures var h := Entry(pd, Floor(address) / 4096);
      ok && h in old(mem.held) ==> mem.Contents(mem.held[h]) == old(mem.Contents(mem.held[h])) && mem.bits[h].writable
    ensures var h := Entry(pd, Floor(address) / 4096);
      ok && h in old(mem.held) ==>
        Refaulted(old(mem.held), old(mem.data), old(mem.bits), old(mem.meta), mem.held, mem.data, mem.bits, mem.meta, h)
    ensures var h := Entry(pd, Floor(address) / 4096);
      !ok ==>
        mem.bits == old(mem.bits)
        && (h in old(mem.held) ==>
          mem.held == old(mem.held) && mem.data == old(mem.data) && mem.meta == old(mem.meta))
    ensures var h, page := Entry(pd, Floor(address) / 4096), Floor(address);
      var area, part := AreaFor(vm.areas[..], page), PartFor(vm.areas[..], identity, page, |content|);
      h !in old(mem.held) ==>
        CacheKept(old(mem.held), old(mem.meta), mem.held, mem.meta, part)
        && (ok ==> if Anon(area) then mem.meta == old(mem.meta) && NewTo(old(mem.held), mem.held[h])
          else FromCache(mem.held, mem.meta, part, mem.held[h]))
    ensures var h, page := Entry(pd, Floor(address) / 4096), Floor(address);
      var area, part := AreaFor(vm.areas[..], page), PartFor(vm.areas[..], identity, page, |content|);
      ok && h !in old(mem.held) ==>
        mem.Contents(mem.held[h]) == old(mem.FirstPage(area, part, Padded(content))) && mem.bits[h] == FirstBits(area)
    ensures var page := Floor(address);
      var area, part := AreaFor(vm.areas[..], page), PartFor(vm.areas[..], identity, page, |content|);
      Carries(old(mem.held), old(mem.data), old(mem.meta),
              Learned(old(mem.files), part, Padded(content), ok && old(mem.Fetches(pd, page / 4096, area, part))),
              mem.held, mem.data, mem.meta, mem.files)
  {
    var page := Floor(address);
    var area, part := Lookup(vm, identity, page, |content|);
    var inBreak := vm.brkStart <= page < vm.brkEnd;
    ok := mem.HandleFault(pd, page / 4096, write, area, inBreak, part, readable, Padded(content));
  }
}
