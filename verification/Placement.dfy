/** Section layout and relocation of a set of objects. */
module Placement {
  import opened Bytes
  import opened ObjectFormat
  import opened Resolver
  import opened Words

  const PAGE := 4096

  function Align4(n: nat): (r: nat)
    ensures n <= r < n + 4 && r % 4 == 0
  {
    (n + 3) / 4 * 4
  }

  function PageUp(n: nat): (r: nat)
    ensures n <= r < n + PAGE && r % PAGE == 0
  {
    (n + (PAGE - 1)) / PAGE * PAGE
  }

  // ---- layout ----

  datatype Layout = Layout(origin: nat, text: seq<nat>, textEnd: nat, dataStart: nat, data: seq<nat>, dataEnd: nat,
      bss: seq<nat>, memEnd: nat)

  /** Sections laid one after the other on four-byte boundaries from start to end. */
  ghost predicate Stacked(start: nat, sizes: seq<nat>, bases: seq<nat>, end: nat) {
    && |bases| == |sizes| && start <= end
    && (forall i :: 0 <= i < |bases| ==> start <= bases[i] && bases[i] + sizes[i] <= end && bases[i] % 4 == 0)
    && (forall i, j :: 0 <= i < j < |bases| ==> bases[i] + sizes[i] <= bases[j])
  }

  function Sizes(objs: seq<Object>, s: Section): (z: seq<nat>)
    ensures |z| == |objs| && forall i :: 0 <= i < |objs| ==> z[i] == SizeOf(objs[i], s)
  {
    if objs == [] then [] else Sizes(objs[..|objs| - 1], s) + [SizeOf(objs[|objs| - 1], s)]
  }

  function SizeOf(o: Object, s: Section): nat {
    if s == Text then |o.text| else if s == Data then |o.data| else if s == Bss then o.bssSize else 0
  }

  /** Sections of each kind lie together in the order text, data, bss; data starts on a page. */
  ghost predicate LaidOut(objs: seq<Object>, lay: Layout) {
    && Stacked(lay.origin, Sizes(objs, Text), lay.text, lay.textEnd)
    && lay.dataStart == PageUp(lay.textEnd)
    && Stacked(lay.dataStart, Sizes(objs, Data), lay.data, lay.dataEnd)
    && Stacked(lay.dataEnd, Sizes(objs, Bss), lay.bss, lay.memEnd)
  }

  /** The first starts at start, and less than a word is left after each. */
  ghost predicate Packed(start: nat, sizes: seq<nat>, bases: seq<nat>, end: nat) {
    && |bases| == |sizes| && end % 4 == 0
    && (if bases == [] then end == start else bases[0] == start && Snug(bases[|bases| - 1] + sizes[|bases| - 1], end))
    && forall i :: 0 < i < |bases| ==> Snug(bases[i - 1] + sizes[i - 1], bases[i])
  }

  predicate Snug(n: nat, r: nat) { n <= r < n + 4 }

  method Stack(start: nat, sizes: seq<nat>) returns (bases: seq<nat>, end: nat)
    requires start % 4 == 0
    ensures Stacked(start, sizes, bases, end) && Packed(start, sizes, bases, end) && end % 4 == 0
  {
    bases, end := [], start;
    var i := 0;
    while i < |sizes|
      invariant 0 <= i <= |sizes| && Stacked(start, sizes[..i], bases, end) && end % 4 == 0
      invariant Packed(start, sizes[..i], bases, end)
    {
      bases := bases + [end];
      end := Align4(end + sizes[i]);
      i := i + 1;
    }
    assert sizes[..i] == sizes;
  }

  lemma PageWord(n: nat)
    requires n % PAGE == 0
    ensures n % 4 == 0
  {
    assert n == 4 * (n / PAGE * 1024);
  }

  ghost predicate Tight(objs: seq<Object>, lay: Layout) {
    && Packed(lay.origin, Sizes(objs, Text), lay.text, lay.textEnd)
    && Packed(lay.dataStart, Sizes(objs, Data), lay.data, lay.dataEnd)
    && Packed(lay.dataEnd, Sizes(objs, Bss), lay.bss, lay.memEnd)
  }

  method Place(objs: seq<Object>, origin: nat) returns (lay: Layout)
    requires origin % PAGE == 0
    ensures LaidOut(objs, lay) && Tight(objs, lay) && lay.origin == origin
  {
    PageWord(origin);
    var text, textEnd := Stack(origin, Sizes(objs, Text));
    var dataStart := PageUp(textEnd);
    PageWord(dataStart);
    var data, dataEnd := Stack(dataStart, Sizes(objs, Data));
    var bss, memEnd := Stack(dataEnd, Sizes(objs, Bss));
    lay := Layout(origin, text, textEnd, dataStart, data, dataEnd, bss, memEnd);
  }

  // ---- addresses ----

  /** Where a section of an object starts; absolute symbols count from zero. */
  function Base(lay: Layout, i: nat, s: Section): nat
    requires i < |lay.text| && i < |lay.data| && i < |lay.bss|
  {
    if s == Text then lay.text[i] else if s == Data then lay.data[i] else if s == Bss then lay.bss[i] else 0
  }

  function AddressOf(objs: seq<Object>, lay: Layout, j: int, l: int): nat {
    if 0 <= j < |objs| && j < |lay.text| && j < |lay.data| && j < |lay.bss| && 0 <= l < |objs[j].symbols|
    then Base(lay, j, objs[j].symbols[l].section) + objs[j].symbols[l].value
    else 0
  }

  /** Symbol s of object i stands for symbol l of object j. */
  predicate Resolves(objs: seq<Object>, i: int, s: int, j: int, l: int) {
    && 0 <= i < |objs| && 0 <= s < |objs[i].symbols|
    && if objs[i].symbols[s].section != Undef then j == i && l == s else Definer(objs, j, l, objs[i].symbols[s].name)
  }

  /** The global symbol table. */
  ghost predicate Addresses(objs: seq<Object>, lay: Layout, g: map<Name, nat>) {
    && (forall n :: n in g <==> DefinedBy(objs, n))
    && (forall j, l, n {:trigger Definer(objs, j, l, n)} :: Definer(objs, j, l, n) ==>
        n in g && g[n] == AddressOf(objs, lay, j, l))
  }

  /** The table of the first m symbols of object i and all objects before it. */
  ghost predicate Partial(objs: seq<Object>, lay: Layout, g: map<Name, nat>, i: int, m: int) {
    && (forall n :: n in g ==> DefinedBy(objs, n))
    && (forall j, l, n {:trigger Definer(objs, j, l, n)} :: Definer(objs, j, l, n) && (j < i || (j == i && l < m)) ==>
        n in g && g[n] == AddressOf(objs, lay, j, l))
  }

  lemma PartialStep(objs: seq<Object>, lay: Layout, g: map<Name, nat>, i: int, m: int, g': map<Name, nat>)
    requires Unique(objs) && Partial(objs, lay, g, i, m) && 0 <= i < |objs| && 0 <= m < |objs[i].symbols|
    requires g' == if Exported(objs[i].symbols[m]) then g[objs[i].symbols[m].name := AddressOf(objs, lay, i, m)] else g
    ensures Partial(objs, lay, g', i, m + 1)
  {
    var n := objs[i].symbols[m].name;
    if Exported(objs[i].symbols[m]) {
      assert ExportsAt(objs[i], m, n) && Defines(objs[i], n) && Definer(objs, i, m, n);
    }
  }

  method Globals(objs: seq<Object>, lay: Layout) returns (g: map<Name, nat>)
    requires Unique(objs)
    ensures Addresses(objs, lay, g)
  {
    g := map[];
    var i := 0;
    while i < |objs|
      invariant 0 <= i <= |objs| && Partial(objs, lay, g, i, 0)
    {
      var m := 0;
      while m < |objs[i].symbols|
        invariant 0 <= m <= |objs[i].symbols| && Partial(objs, lay, g, i, m)
      {
        ghost var before := g;
        if Exported(objs[i].symbols[m]) {
          g := g[objs[i].symbols[m].name := AddressOf(objs, lay, i, m)];
        }
        PartialStep(objs, lay, before, i, m, g);
        m := m + 1;
      }
      i := i + 1;
    }
    forall n | DefinedBy(objs, n) ensures n in g {
      var j :| 0 <= j < |objs| && Defines(objs[j], n);
      var l :| ExportsAt(objs[j], l, n);
      assert Definer(objs, j, l, n);
    }
  }

  // ---- relocation ----

  function Sec(o: Object, inText: bool): seq<u8> { if inText then o.text else o.data }

  /** Relocation fields lie inside their section, apart from each other, and name symbols of the object. */
  predicate Sound(o: Object) {
    && (forall q :: 0 <= q < |o.relocs| ==>
        o.relocs[q].symbol < |o.symbols| && o.relocs[q].offset + 4 <= |Sec(o, o.relocs[q].inText)|)
    && (forall p, q :: 0 <= p < q < |o.relocs| && o.relocs[p].inText == o.relocs[q].inText ==>
        Apart(o.relocs[p].offset, o.relocs[q].offset))
  }

  predicate Apart(a: int, b: int) { a + 4 <= b || b + 4 <= a }

  ghost predicate AllSound(objs: seq<Object>) { forall i :: 0 <= i < |objs| ==> Sound(objs[i]) }

  /** Byte x of the section is part of a relocation field. */
  ghost predicate Covered(o: Object, inText: bool, x: int) {
    exists q :: 0 <= q < |o.relocs| && o.relocs[q].inText == inText && o.relocs[q].offset <= x < o.relocs[q].offset + 4
  }

  function Value(address: nat, addend: int): u32 { (address + addend) % 0x1_0000_0000 }

  /** A section's bytes outside the relocation fields are as in the objects. */
  ghost predicate Raw(objs: seq<Object>, inText: bool, bases: seq<nat>, start: nat, buf: seq<u8>) {
    forall j, x {:trigger Sec(objs[j], inText)[x]} ::
      0 <= j < |objs| && j < |bases| && 0 <= x < |Sec(objs[j], inText)| && !Covered(objs[j], inText, x)
      ==> 0 <= bases[j] - start + x < |buf| && buf[bases[j] - start + x] == Sec(objs[j], inText)[x]
  }

  /** Byte x of the buffer belongs to object j. */
  predicate InSection(objs: seq<Object>, inText: bool, bases: seq<nat>, start: nat, j: int, x: int) {
    0 <= j < |objs| && j < |bases| && 0 <= x - (bases[j] - start) < |Sec(objs[j], inText)|
  }

  /** Between the sections there are zeros. */
  ghost predicate Blank(objs: seq<Object>, inText: bool, bases: seq<nat>, start: nat, buf: seq<u8>) {
    forall x :: 0 <= x < |buf| ==> buf[x] == 0 || exists j :: InSection(objs, inText, bases, start, j, x)
  }

  /** Relocation p of object j has been applied: its field holds the address of the symbol meant plus the addend. */
  ghost predicate Applied(objs: seq<Object>, lay: Layout, inText: bool, bases: seq<nat>, start: nat, buf: seq<u8>,
                          j: int, p: int) {
    && 0 <= j < |objs| && j < |bases| && 0 <= p < |objs[j].relocs|
    && var r := objs[j].relocs[p];
      r.inText == inText ==>
        && InRange(buf, bases[j] - start + r.offset)
        && exists k, l ::
        Resolves(objs, j, r.symbol, k, l)
        && Read32(buf, bases[j] - start + r.offset) == Value(AddressOf(objs, lay, k, l), r.addend)
  }

  /** Every relocation that comes before relocation q of object i. */
  predicate Earlier(j: int, p: int, i: int, q: int) { j < i || (j == i && p < q) }

  ghost predicate Progress(objs: seq<Object>, lay: Layout, inText: bool, bases: seq<nat>, start: nat, buf: seq<u8>,
                           i: int, q: int) {
    && Raw(objs, inText, bases, start, buf) && Blank(objs, inText, bases, start, buf)
    && (forall j, p {:trigger Applied(objs, lay, inText, bases, start, buf, j, p)} ::
        0 <= j < |objs| && 0 <= p < |objs[j].relocs| && Earlier(j, p, i, q) ==>
        Applied(objs, lay, inText, bases, start, buf, j, p))
  }

  /** The sections lie apart in a buffer of that size. */
  ghost predicate Room(objs: seq<Object>, inText: bool, bases: seq<nat>, start: nat, size: nat) {
    && |bases| == |objs|
    && (forall i :: 0 <= i < |objs| ==> start <= bases[i] && bases[i] + |Sec(objs[i], inText)| - start <= size)
    && (forall i, j :: 0 <= i < j < |objs| ==> bases[i] + |Sec(objs[i], inText)| <= bases[j])
  }

  /** Two places of the sections are four bytes apart when their objects differ. */
  lemma Elsewhere(objs: seq<Object>, inText: bool, bases: seq<nat>, start: nat, size: nat, i: int, a: int, n: int,
                  j: int, b: int, m: int)
    requires Room(objs, inText, bases, start, size) && 0 <= i < |objs| && 0 <= j < |objs| && i != j
    requires 0 <= a && a + n <= |Sec(objs[i], inText)| && 0 <= b && b + m <= |Sec(objs[j], inText)|
    ensures bases[i] - start + a + n <= bases[j] - start + b || bases[j] - start + b + m <= bases[i] - start + a
  {
  }

  lemma RawKept(objs: seq<Object>, inText: bool, bases: seq<nat>, start: nat, buf: seq<u8>, i: int, q: int, v: u32)
    requires AllSound(objs) && Room(objs, inText, bases, start, |buf|) && Raw(objs, inText, bases, start, buf)
    requires 0 <= i < |objs| && 0 <= q < |objs[i].relocs| && objs[i].relocs[q].inText == inText
    requires InRange(buf, bases[i] - start + objs[i].relocs[q].offset)
    ensures Raw(objs, inText, bases, start, Write32(buf, bases[i] - start + objs[i].relocs[q].offset, v))
  {
    var off := objs[i].relocs[q].offset;
    var at := bases[i] - start + off;
    var buf' := Write32(buf, at, v);
    WriteRead(buf, at, v);
    forall j, x | 0 <= j < |objs| && 0 <= x < |Sec(objs[j], inText)| && !Covered(objs[j], inText, x)
      ensures 0 <= bases[j] - start + x < |buf'| && buf'[bases[j] - start + x] == Sec(objs[j], inText)[x]
    {
      if j != i { Elsewhere(objs, inText, bases, start, |buf|, i, off, 4, j, x, 1); }
    }
  }

  lemma BlankKept(objs: seq<Object>, inText: bool, bases: seq<nat>, start: nat, buf: seq<u8>, i: int, q: int, v: u32)
    requires AllSound(objs) && Room(objs, inText, bases, start, |buf|) && Blank(objs, inText, bases, start, buf)
    requires 0 <= i < |objs| && 0 <= q < |objs[i].relocs| && objs[i].relocs[q].inText == inText
    requires InRange(buf, bases[i] - start + objs[i].relocs[q].offset)
    ensures Blank(objs, inText, bases, start, Write32(buf, bases[i] - start + objs[i].relocs[q].offset, v))
  {
    var at := bases[i] - start + objs[i].relocs[q].offset;
    WriteRead(buf, at, v);
    var buf' := Write32(buf, at, v);
    assert Sound(objs[i]);
    forall x | 0 <= x < |buf'| ensures buf'[x] == 0 || exists j :: InSection(objs, inText, bases, start, j, x) {
      if at <= x < at + 4 { assert InSection(objs, inText, bases, start, i, x); } else { assert buf'[x] == buf[x]; }
    }
  }

  /** A word elsewhere reads as before. */
  lemma ReadKept(buf: seq<u8>, at: int, v: u32, b: int)
    requires InRange(buf, at) && InRange(buf, b) && Apart(at, b)
    ensures Read32(Write32(buf, at, v), b) == Read32(buf, b)
  {
    WriteRead(buf, at, v);
  }

  lemma AppliedKept(objs: seq<Object>, lay: Layout, inText: bool, bases: seq<nat>, start: nat, buf: seq<u8>, i: int,
                    q: int, v: u32, j: int, p: int)
    requires AllSound(objs) && Room(objs, inText, bases, start, |buf|)
      && Applied(objs, lay, inText, bases, start, buf, j, p)
    requires 0 <= i < |objs| && 0 <= q < |objs[i].relocs| && objs[i].relocs[q].inText == inText && (j != i || p != q)
    requires InRange(buf, bases[i] - start + objs[i].relocs[q].offset)
    ensures Applied(objs, lay, inText, bases, start, Write32(buf, bases[i] - start + objs[i].relocs[q].offset, v), j, p)
  {
    var r := objs[j].relocs[p];
    var off := objs[i].relocs[q].offset;
    var at := bases[i] - start + off;
    if r.inText == inText {
      var b := bases[j] - start + r.offset;
      assert Sound(objs[i]) && Sound(objs[j]);
      if j == i {
        assert Apart(r.offset, off);
      } else {
        Elsewhere(objs, inText, bases, start, |buf|, i, off, 4, j, r.offset, 4);
      }
      ReadKept(buf, at, v, b);
    }
  }

  lemma AppliedNow(objs: seq<Object>, lay: Layout, inText: bool, bases: seq<nat>, start: nat, buf: seq<u8>, i: int,
                   q: int, k: int, l: int)
    requires 0 <= i < |objs| && i < |bases| && 0 <= q < |objs[i].relocs| && objs[i].relocs[q].inText == inText
    requires InRange(buf, bases[i] - start + objs[i].relocs[q].offset)
      && Resolves(objs, i, objs[i].relocs[q].symbol, k, l)
    ensures Applied(objs, lay, inText, bases, start,
        Write32(buf, bases[i] - start + objs[i].relocs[q].offset,
          Value(AddressOf(objs, lay, k, l), objs[i].relocs[q].addend)), i, q)
  {
    WriteRead(buf, bases[i] - start + objs[i].relocs[q].offset,
        Value(AddressOf(objs, lay, k, l), objs[i].relocs[q].addend));
  }

  /** Applying relocation q of object i takes the buffer of its section one step on. */
  lemma ProgressStep(objs: seq<Object>, lay: Layout, inText: bool, bases: seq<nat>, start: nat, buf: seq<u8>,
                     buf': seq<u8>, i: int, q: int, k: int, l: int)
    requires AllSound(objs) && Room(objs, inText, bases, start, |buf|)
      && Progress(objs, lay, inText, bases, start, buf, i, q)
    requires 0 <= i < |objs| && 0 <= q < |objs[i].relocs| && objs[i].relocs[q].inText == inText
      && Resolves(objs, i, objs[i].relocs[q].symbol, k, l)
    requires var at := bases[i] - start + objs[i].relocs[q].offset;
      InRange(buf, at) ==> buf' == Write32(buf, at, Value(AddressOf(objs, lay, k, l), objs[i].relocs[q].addend))
    ensures Progress(objs, lay, inText, bases, start, buf', i, q + 1)
  {
    assert Sound(objs[i]);
    var v := Value(AddressOf(objs, lay, k, l), objs[i].relocs[q].addend);
    RawKept(objs, inText, bases, start, buf, i, q, v);
    BlankKept(objs, inText, bases, start, buf, i, q, v);
    forall j, p | 0 <= j < |objs| && 0 <= p < |objs[j].relocs| && Earlier(j, p, i, q + 1)
      ensures Applied(objs, lay, inText, bases, start, buf', j, p)
    {
      if j == i && p == q { AppliedNow(objs, lay, inText, bases, start, buf, i, q, k, l); } else {
        AppliedKept(objs, lay, inText, bases, start, buf, i, q, v, j, p);
      }
    }
  }

  /** A relocation of the other section has nothing to do in this one. */
  lemma ProgressOther(objs: seq<Object>, lay: Layout, inText: bool, bases: seq<nat>, start: nat, buf: seq<u8>, i: int,
                      q: int)
    requires Progress(objs, lay, inText, bases, start, buf, i, q) && |bases| == |objs|
    requires 0 <= i < |objs| && 0 <= q < |objs[i].relocs| && objs[i].relocs[q].inText != inText
    ensures Progress(objs, lay, inText, bases, start, buf, i, q + 1)
  {
    forall j, p | 0 <= j < |objs| && 0 <= p < |objs[j].relocs| && Earlier(j, p, i, q + 1)
      ensures Applied(objs, lay, inText, bases, start, buf, j, p)
    {
      if j == i && p == q { assert objs[j].relocs[p].inText != inText; }
    }
  }

  lemma RoomOf(objs: seq<Object>, lay: Layout)
    requires LaidOut(objs, lay)
    ensures Room(objs, true, lay.text, lay.origin, lay.textEnd - lay.origin)
      && Room(objs, false, lay.data, lay.dataStart, lay.dataEnd - lay.dataStart)
  {
  }

  method SetBytes(buf: array<u8>, at: nat, bytes: seq<u8>)
    requires at + |bytes| <= buf.Length
    modifies buf
    ensures forall x :: 0 <= x < |bytes| ==> buf[at + x] == bytes[x]
    ensures forall y :: 0 <= y < buf.Length && !(at <= y < at + |bytes|) ==> buf[y] == old(buf[y])
  {
    forall y | at <= y < at + |bytes| { buf[y] := bytes[y - at]; }
  }

  /** The sections of the first i objects stand in the buffer, byte for byte. */
  ghost predicate Copied(objs: seq<Object>, inText: bool, bases: seq<nat>, start: nat, buf: seq<u8>, i: int) {
    forall j, x {:trigger Sec(objs[j], inText)[x]} ::
      0 <= j < |objs| && j < i && j < |bases| && 0 <= x < |Sec(objs[j], inText)|
      ==> 0 <= bases[j] - start + x < |buf| && buf[bases[j] - start + x] == Sec(objs[j], inText)[x]
  }

  method Compose(objs: seq<Object>, inText: bool, bases: seq<nat>, start: nat, size: nat) returns (buf: array<u8>)
    requires Room(objs, inText, bases, start, size)
    ensures fresh(buf) && buf.Length == size
    ensures Raw(objs, inText, bases, start, buf[..]) && Blank(objs, inText, bases, start, buf[..])
  {
    buf := new u8[size](_ => 0);
    var i := 0;
    while i < |objs|
      invariant 0 <= i <= |objs| && Copied(objs, inText, bases, start, buf[..], i)
      invariant Blank(objs, inText, bases, start, buf[..])
    {
      ghost var before := buf[..];
      SetBytes(buf, bases[i] - start, Sec(objs[i], inText));
      CopiedNext(objs, inText, bases, start, before, buf[..], i);
      BlankNext(objs, inText, bases, start, before, buf[..], i);
      i := i + 1;
    }
  }

  lemma BlankNext(objs: seq<Object>, inText: bool, bases: seq<nat>, start: nat, before: seq<u8>, after: seq<u8>,
                  i: int)
    requires Blank(objs, inText, bases, start, before) && 0 <= i < |objs| && i < |bases| && |after| == |before|
    requires forall y :: 0 <= y < |before| && !InSection(objs, inText, bases, start, i, y) ==> after[y] == before[y]
    ensures Blank(objs, inText, bases, start, after)
  {
  }

  lemma CopiedNext(objs: seq<Object>, inText: bool, bases: seq<nat>, start: nat, before: seq<u8>, after: seq<u8>,
                   i: int)
    requires Room(objs, inText, bases, start, |before|) && Copied(objs, inText, bases, start, before, i)
      && 0 <= i < |objs| && |after| == |before|
    requires var at := bases[i] - start; var bytes := Sec(objs[i], inText);
      && (forall x :: 0 <= x < |bytes| ==> after[at + x] == bytes[x])
      && (forall y :: 0 <= y < |before| && !(at <= y < at + |bytes|) ==> after[y] == before[y])
    ensures Copied(objs, inText, bases, start, after, i + 1)
  {
    forall j, x | 0 <= j < i + 1 && 0 <= x < |Sec(objs[j], inText)|
      ensures 0 <= bases[j] - start + x < |after| && after[bases[j] - start + x] == Sec(objs[j], inText)[x]
    {
      if j < i { Elsewhere(objs, inText, bases, start, |before|, i, 0, |Sec(objs[i], inText)|, j, x, 1); }
    }
  }

  /** Stores the four bytes of a word, those of them that lie in the buffer. */
  method WriteWord(buf: array<u8>, at: nat, v: u32)
    modifies buf
    ensures InRange(old(buf[..]), at) ==> buf[..] == Write32(old(buf[..]), at, v)
    ensures !InRange(old(buf[..]), at) ==>
      buf[..] == if at > buf.Length then old(buf[..])
        else Write32(old(buf[..]) + [0, 0, 0, 0], at, v)[..buf.Length]
  {
    if at < buf.Length { buf[at] := v % 0x100; }
    if at + 1 < buf.Length { buf[at + 1] := v / 0x100 % 0x100; }
    if at + 2 < buf.Length { buf[at + 2] := v / 0x1_0000 % 0x100; }
    if at + 3 < buf.Length { buf[at + 3] := v / 0x100_0000; }
  }

  /** The relocation's symbol stands for some definition. */
  ghost predicate CanResolve(objs: seq<Object>, i: int, s: int) { exists k, l :: Resolves(objs, i, s, k, l) }

  ghost predicate AllResolve(objs: seq<Object>) {
    forall i, q {:trigger objs[i].relocs[q]} :: 0 <= i < |objs| && 0 <= q < |objs[i].relocs| ==>
      CanResolve(objs, i, objs[i].relocs[q].symbol)
  }

  /** Once no name is wanting, no relocation of sound objects meets an undefined symbol. */
  lemma ClosedResolves(objs: seq<Object>)
    requires Closed(objs) && AllSound(objs)
    ensures AllResolve(objs)
  {
    forall i, q | 0 <= i < |objs| && 0 <= q < |objs[i].relocs| ensures CanResolve(objs, i, objs[i].relocs[q].symbol) {
      assert Sound(objs[i]);
      var s := objs[i].relocs[q].symbol;
      var n := objs[i].symbols[s].name;
      if objs[i].symbols[s].section != Undef {
        assert Resolves(objs, i, s, i, s);
      } else {
        assert RefersAt(objs[i], s, n) && Refers(objs[i], n) && ReferredBy(objs, n);
        var j :| 0 <= j < |objs| && Defines(objs[j], n);
        var l :| ExportsAt(objs[j], l, n);
        assert Resolves(objs, i, s, j, l);
      }
    }
  }

  /** The address a relocation's symbol stands for. */
  method Target(objs: seq<Object>, lay: Layout, g: map<Name, nat>, i: nat,
                s: nat) returns (ok: bool, address: nat, ghost k: int, ghost l: int)
    requires Addresses(objs, lay, g) && i < |objs|
    ensures ok <==> CanResolve(objs, i, s)
    ensures ok ==> Resolves(objs, i, s, k, l) && address == AddressOf(objs, lay, k, l)
  {
    address, k, l := 0, i, s;
    if s >= |objs[i].symbols| {
      return false, 0, k, l;
    }
    var sym := objs[i].symbols[s];
    if sym.section == Undef {
      forall a, b | Resolves(objs, i, s, a, b) ensures sym.name in g { assert Definer(objs, a, b, sym.name); }
      ok := sym.name in g;
      if ok {
        address := g[sym.name];
        ghost var j :| 0 <= j < |objs| && Defines(objs[j], sym.name);
        k := j;
        l :| ExportsAt(objs[j], l, sym.name);
        assert Definer(objs, k, l, sym.name) && Resolves(objs, i, s, k, l);
      }
    } else {
      ok, address := true, AddressOf(objs, lay, i, s);
      assert Resolves(objs, i, s, i, s);
    }
  }

  /** What a linked image holds: relocated words in the fields, the objects' own bytes elsewhere. */
  ghost predicate Linked(objs: seq<Object>, lay: Layout, text: seq<u8>, data: seq<u8>) {
    && |text| == lay.textEnd - lay.origin && |data| == lay.dataEnd - lay.dataStart
    && Progress(objs, lay, true, lay.text, lay.origin, text, |objs|, 0)
    && Progress(objs, lay, false, lay.data, lay.dataStart, data, |objs|, 0)
  }

  ghost predicate Halfway(objs: seq<Object>, lay: Layout, text: seq<u8>, data: seq<u8>, i: int, q: int) {
    && |text| == lay.textEnd - lay.origin && |data| == lay.dataEnd - lay.dataStart
    && (AllSound(objs) ==>
      && Progress(objs, lay, true, lay.text, lay.origin, text, i, q)
      && Progress(objs, lay, false, lay.data, lay.dataStart, data, i, q))
  }

  method Relocate(objs: seq<Object>, lay: Layout, g: map<Name, nat>, text: array<u8>,
                  data: array<u8>) returns (ok: bool)
    requires LaidOut(objs, lay) && Addresses(objs, lay, g) && text != data
    requires text.Length == lay.textEnd - lay.origin && data.Length == lay.dataEnd - lay.dataStart
    requires Raw(objs, true, lay.text, lay.origin, text[..]) && Raw(objs, false, lay.data, lay.dataStart, data[..])
    requires Blank(objs, true, lay.text, lay.origin, text[..]) && Blank(objs, false, lay.data, lay.dataStart, data[..])
    modifies text, data
    ensures ok <==> AllResolve(objs)
    ensures ok && AllSound(objs) ==> Linked(objs, lay, text[..], data[..])
  {
    var i := 0;
    while i < |objs|
      invariant 0 <= i <= |objs| && Halfway(objs, lay, text[..], data[..], i, 0)
      invariant forall j, p {:trigger objs[j].relocs[p]} :: 0 <= j < i && 0 <= p < |objs[j].relocs| ==>
        CanResolve(objs, j, objs[j].relocs[p].symbol)
    {
      var q := 0;
      while q < |objs[i].relocs|
        invariant 0 <= q <= |objs[i].relocs| && Halfway(objs, lay, text[..], data[..], i, q)
        invariant forall p {:trigger objs[i].relocs[p]} :: 0 <= p < q ==> CanResolve(objs, i, objs[i].relocs[p].symbol)
      {
        ok := ApplyOne(objs, lay, g, text, data, i, q);
        if !ok {
          assert !CanResolve(objs, i, objs[i].relocs[q].symbol);
          return;
        }
        q := q + 1;
      }
      HalfwayNext(objs, lay, text[..], data[..], i);
      i := i + 1;
    }
    ok := true;
  }

  lemma HalfwayNext(objs: seq<Object>, lay: Layout, text: seq<u8>, data: seq<u8>, i: int)
    requires 0 <= i < |objs| && Halfway(objs, lay, text, data, i, |objs[i].relocs|)
    ensures Halfway(objs, lay, text, data, i + 1, 0)
  {
  }

  method ApplyOne(objs: seq<Object>, lay: Layout, g: map<Name, nat>, text: array<u8>, data: array<u8>, i: nat,
                  q: nat) returns (ok: bool)
    requires LaidOut(objs, lay) && Addresses(objs, lay, g) && text != data && i < |objs| && q < |objs[i].relocs|
    requires Halfway(objs, lay, text[..], data[..], i, q)
    modifies text, data
    ensures ok <==> CanResolve(objs, i, objs[i].relocs[q].symbol)
    ensures ok ==> Halfway(objs, lay, text[..], data[..], i, q + 1)
  {
    var r := objs[i].relocs[q];
    var address;
    ghost var k, l;
    ok, address, k, l := Target(objs, lay, g, i, r.symbol);
    if !ok {
      return;
    }
    var value := Value(address, r.addend);
    ghost var t, d := text[..], data[..];
    if r.inText {
      WriteWord(text, lay.text[i] - lay.origin + r.offset, value);
      assert data[..] == d;
    } else {
      WriteWord(data, lay.data[i] - lay.dataStart + r.offset, value);
      assert text[..] == t;
    }
    Advance(objs, lay, t, d, text[..], data[..], i, q, k, l);
  }

  /** The word of relocation q stored in its section and nothing else, when it fits. */
  ghost predicate Stored(lay: Layout, t: seq<u8>, d: seq<u8>, t': seq<u8>, d': seq<u8>, i: int, r: Reloc, v: u32) {
    && |t'| == |t| && |d'| == |d| && 0 <= i < |lay.text| && i < |lay.data|
    && if r.inText then
      && d' == d
      && (InRange(t, lay.text[i] - lay.origin + r.offset) ==>
        t' == Write32(t, lay.text[i] - lay.origin + r.offset, v))
    else
      && t' == t
      && (InRange(d, lay.data[i] - lay.dataStart + r.offset) ==>
        d' == Write32(d, lay.data[i] - lay.dataStart + r.offset, v))
  }

  lemma Advance(objs: seq<Object>, lay: Layout, t: seq<u8>, d: seq<u8>, t': seq<u8>, d': seq<u8>, i: int, q: int,
                k: int, l: int)
    requires LaidOut(objs, lay) && Halfway(objs, lay, t, d, i, q)
    requires 0 <= i < |objs| && 0 <= q < |objs[i].relocs| && Resolves(objs, i, objs[i].relocs[q].symbol, k, l)
    requires Stored(lay, t, d, t', d', i, objs[i].relocs[q],
        Value(AddressOf(objs, lay, k, l), objs[i].relocs[q].addend))
    ensures Halfway(objs, lay, t', d', i, q + 1)
  {
    if AllSound(objs) {
      RoomOf(objs, lay);
      AdvanceBoth(objs, lay, t, d, t', d', i, q, k, l);
    }
  }

  lemma AdvanceBoth(objs: seq<Object>, lay: Layout, t: seq<u8>, d: seq<u8>, t': seq<u8>, d': seq<u8>, i: int, q: int,
                    k: int, l: int)
    requires AllSound(objs) && Room(objs, true, lay.text, lay.origin, |t|)
      && Room(objs, false, lay.data, lay.dataStart, |d|)
    requires Progress(objs, lay, true, lay.text, lay.origin, t, i, q)
      && Progress(objs, lay, false, lay.data, lay.dataStart, d, i, q)
    requires 0 <= i < |objs| && 0 <= q < |objs[i].relocs| && Resolves(objs, i, objs[i].relocs[q].symbol, k, l)
    requires Stored(lay, t, d, t', d', i, objs[i].relocs[q],
        Value(AddressOf(objs, lay, k, l), objs[i].relocs[q].addend))
    ensures Progress(objs, lay, true, lay.text, lay.origin, t', i, q + 1)
      && Progress(objs, lay, false, lay.data, lay.dataStart, d', i, q + 1)
  {
    if objs[i].relocs[q].inText {
      ProgressStep(objs, lay, true, lay.text, lay.origin, t, t', i, q, k, l);
      ProgressOther(objs, lay, false, lay.data, lay.dataStart, d, i, q);
    } else {
      ProgressStep(objs, lay, false, lay.data, lay.dataStart, d, d', i, q, k, l);
      ProgressOther(objs, lay, true, lay.text, lay.origin, t, i, q);
    }
  }
}
