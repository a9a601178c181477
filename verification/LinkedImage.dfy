/** What a linked image is, said of its bytes and its symbol table alone: where every section lies, what every
    symbol's address is, and what every relocation field holds. */
module LinkedImage {
  import opened Bytes
  import opened Words
  import opened ObjectFormat
  import opened Resolver
  import opened Placement

  function Length(o: Object, s: Section): nat {
    match s
    case Text => |o.text|
    case Data => |o.data|
    case Bss => o.bssSize
    case _ => 0
  }

  /** Where the section of object i starts, counted from the first one's: each takes a whole number of words. */
  function Begin(objs: seq<Object>, s: Section, i: nat): nat
    requires i <= |objs|
  {
    if i == 0 then 0 else Begin(objs, s, i - 1) + Align4(Length(objs[i - 1], s))
  }

  /** Where the sections of a kind start: text at the origin, data on the next page, bss after the data. */
  function Start(origin: nat, textSize: nat, dataSize: nat, s: Section): nat {
    match s
    case Text => origin
    case Data => PageUp(origin + textSize)
    case Bss => PageUp(origin + textSize) + dataSize
    case _ => 0
  }

  /** Symbol l of object k has this address. */
  ghost predicate Stands(objs: seq<Object>, origin: nat, text: seq<u8>, data: seq<u8>, k: int, l: int, address: nat) {
    && 0 <= k < |objs| && 0 <= l < |objs[k].symbols|
    && var sym := objs[k].symbols[l];
      match sym.section
      case Undef => false
      case Abs => address == sym.value
      case s => address == Start(origin, |text|, |data|, s) + Begin(objs, s, k) + sym.value
  }

  function Body(o: Object, s: Section): seq<u8> { if s == Text then o.text else o.data }

  /** Byte x of a part of the image is byte y of object k. */
  predicate Holds(objs: seq<Object>, s: Section, x: int, k: int, y: int) {
    0 <= k < |objs| && 0 <= y < |Body(objs[k], s)| && x == Begin(objs, s, k) + y
  }

  /** Byte x of a part, outside relocation fields, is the byte that stands there. */
  ghost predicate ByteHeld(objs: seq<Object>, s: Section, buf: seq<u8>, x: int, k: int, y: int) {
    Holds(objs, s, x, k, y) ==>
      0 <= x < |buf| && (Covered(objs[k], s == Text, y) || buf[x] == Body(objs[k], s)[y])
  }

  /** A byte that is not zero belongs to some object. */
  ghost predicate Owned(objs: seq<Object>, s: Section, buf: seq<u8>, x: int) {
    0 <= x < |buf| && buf[x] != 0 ==> exists k, y :: Holds(objs, s, x, k, y)
  }

  /** The bytes of a part are those of the objects, outside relocation fields, with zeros between. */
  ghost predicate Bytewise(objs: seq<Object>, s: Section, buf: seq<u8>) {
    && |buf| == Begin(objs, s, |objs|)
    && (forall x, k, y :: ByteHeld(objs, s, buf, x, k, y)) && (forall x :: Owned(objs, s, buf, x))
  }

  /** The field of relocation q of object j holds the address of the symbol meant plus the addend. */
  ghost predicate Patched(objs: seq<Object>, origin: nat, text: seq<u8>, data: seq<u8>, j: int, q: int) {
    && 0 <= j < |objs| && 0 <= q < |objs[j].relocs|
    && var r := objs[j].relocs[q];
      var buf, at := if r.inText then text else data,
        (if r.inText then Begin(objs, Text, j) else Begin(objs, Data, j)) + r.offset;
      && InRange(buf, at)
      && exists k, l, a: nat ::
      Resolves(objs, j, r.symbol, k, l) && Stands(objs, origin, text, data, k, l, a)
      && Read32(buf, at) == (a + r.addend) % 0x1_0000_0000
  }

  ghost predicate ImageOf(objs: seq<Object>, origin: nat, text: seq<u8>, data: seq<u8>, g: map<Name, nat>) {
    && Bytewise(objs, Text, text) && Bytewise(objs, Data, data)
    && (forall n :: n in g <==> DefinedBy(objs, n))
    && (forall j, l, n {:trigger Definer(objs, j, l, n)} :: Definer(objs, j, l, n) ==>
        n in g && Stands(objs, origin, text, data, j, l, g[n]))
    && (forall j, q {:trigger Patched(objs, origin, text, data, j, q)} ::
        0 <= j < |objs| && 0 <= q < |objs[j].relocs| ==> Patched(objs, origin, text, data, j, q))
  }

  /** At the address of a text or data symbol the image holds the byte the object has there, and a bss symbol
      lies past all data. */
  lemma SymbolShows(objs: seq<Object>, origin: nat, text: seq<u8>, data: seq<u8>, g: map<Name, nat>, j: int, l: int,
                    n: Name)
    requires ImageOf(objs, origin, text, data, g) && Definer(objs, j, l, n)
    ensures var o, sym, dataStart := objs[j], objs[j].symbols[l], PageUp(origin + |text|);
      && n in g
      && (sym.section == Text && sym.value < |o.text| && !Covered(o, true, sym.value) ==>
        0 <= g[n] - origin < |text| && text[g[n] - origin] == o.text[sym.value])
      && (sym.section == Data && sym.value < |o.data| && !Covered(o, false, sym.value) ==>
        0 <= g[n] - dataStart < |data| && data[g[n] - dataStart] == o.data[sym.value])
      && (sym.section == Bss ==> g[n] == dataStart + |data| + Begin(objs, Bss, j) + sym.value)
      && (sym.section == Abs ==> g[n] == sym.value)
  {
    var sym := objs[j].symbols[l];
    assert Stands(objs, origin, text, data, j, l, g[n]);
    if sym.section == Text && sym.value < |objs[j].text| {
      assert ByteHeld(objs, Text, text, Begin(objs, Text, j) + sym.value, j, sym.value);
    }
    if sym.section == Data && sym.value < |objs[j].data| {
      assert ByteHeld(objs, Data, data, Begin(objs, Data, j) + sym.value, j, sym.value);
    }
  }

  // ---- a laid out and relocated set of objects is such an image ----

  /** The base of section i, or the end after the last. */
  function BaseOf(bases: seq<nat>, end: nat, i: nat): nat { if i < |bases| then bases[i] else end }

  lemma {:induction false} PackedBegins(objs: seq<Object>, s: Section, start: nat, bases: seq<nat>, end: nat, i: nat)
    requires start % 4 == 0 && Packed(start, Sizes(objs, s), bases, end) && Stacked(start, Sizes(objs, s), bases, end)
    requires i <= |objs|
    ensures BaseOf(bases, end, i) == start + Begin(objs, s, i)
    decreases i
  {
    if i > 0 {
      PackedBegins(objs, s, start, bases, end, i - 1);
      NextBase(start, Sizes(objs, s), bases, end, i, Begin(objs, s, i - 1));
      SizeIs(objs, s, i - 1);
    }
  }

  lemma SizeIs(objs: seq<Object>, s: Section, i: nat)
    requires i < |objs|
    ensures i < |Sizes(objs, s)| && Sizes(objs, s)[i] == Length(objs[i], s)
  {
  }

  lemma NextBase(start: nat, sizes: seq<nat>, bases: seq<nat>, end: nat, i: nat, n: nat)
    requires start % 4 == 0 && Packed(start, sizes, bases, end) && Stacked(start, sizes, bases, end)
    requires 0 < i <= |sizes| && BaseOf(bases, end, i - 1) == start + n
    ensures BaseOf(bases, end, i) == start + n + Align4(sizes[i - 1])
  {
    NextWord(bases[i - 1], sizes[i - 1], BaseOf(bases, end, i));
  }

  lemma NextWord(start: nat, n: nat, r: nat)
    requires start % 4 == 0 && r % 4 == 0 && Snug(start + n, r)
    ensures r == start + Align4(n)
  {
  }

  /** The layout's figures are those of the image. */
  ghost predicate Fits(objs: seq<Object>, lay: Layout, text: seq<u8>, data: seq<u8>) {
    && Spanned(objs, lay) && |text| == lay.textEnd - lay.origin && |data| == lay.dataEnd - lay.dataStart
    && lay.textEnd == lay.origin + Begin(objs, Text, |objs|) && lay.dataStart == PageUp(lay.textEnd)
    && lay.dataEnd == lay.dataStart + Begin(objs, Data, |objs|)
    && forall i :: 0 <= i < |objs| ==> FitsAt(objs, lay, i)
  }

  predicate Spanned(objs: seq<Object>, lay: Layout) {
    |lay.text| == |objs| && |lay.data| == |objs| && |lay.bss| == |objs|
  }

  predicate FitsAt(objs: seq<Object>, lay: Layout, i: nat)
    requires i < |objs| && Spanned(objs, lay)
  {
    && lay.text[i] == lay.origin + Begin(objs, Text, i)
    && lay.data[i] == lay.dataStart + Begin(objs, Data, i)
    && lay.bss[i] == lay.dataEnd + Begin(objs, Bss, i)
  }

  lemma LayoutFits(objs: seq<Object>, lay: Layout, text: seq<u8>, data: seq<u8>)
    requires LaidOut(objs, lay) && Tight(objs, lay) && lay.origin % PAGE == 0
    requires |text| == lay.textEnd - lay.origin && |data| == lay.dataEnd - lay.dataStart
    ensures Fits(objs, lay, text, data)
  {
    PageWord(lay.origin);
    PageWord(lay.dataStart);
    PackedBegins(objs, Text, lay.origin, lay.text, lay.textEnd, |objs|);
    PackedBegins(objs, Data, lay.dataStart, lay.data, lay.dataEnd, |objs|);
    forall i | 0 <= i < |objs| ensures FitsAt(objs, lay, i) {
      PackedBegins(objs, Text, lay.origin, lay.text, lay.textEnd, i);
      PackedBegins(objs, Data, lay.dataStart, lay.data, lay.dataEnd, i);
      PackedBegins(objs, Bss, lay.dataEnd, lay.bss, lay.memEnd, i);
    }
  }

  lemma AddressStands(objs: seq<Object>, lay: Layout, text: seq<u8>, data: seq<u8>, k: int, l: int)
    requires Fits(objs, lay, text, data) && 0 <= k < |objs| && 0 <= l < |objs[k].symbols|
    requires objs[k].symbols[l].section != Undef
    ensures Stands(objs, lay.origin, text, data, k, l, AddressOf(objs, lay, k, l))
  {
    assert FitsAt(objs, lay, k);
  }

  lemma Resolved(objs: seq<Object>, i: int, s: int, j: int, l: int)
    requires Resolves(objs, i, s, j, l)
    ensures 0 <= j < |objs| && 0 <= l < |objs[j].symbols| && objs[j].symbols[l].section != Undef
  {
  }

  ghost predicate Based(objs: seq<Object>, s: Section, bases: seq<nat>, start: nat, buf: seq<u8>) {
    && (s == Text || s == Data) && |bases| == |objs| && |buf| == Begin(objs, s, |objs|)
    && (forall i :: 0 <= i < |objs| ==> bases[i] == start + Begin(objs, s, i))
  }

  lemma PartBytes(objs: seq<Object>, s: Section, bases: seq<nat>, start: nat, buf: seq<u8>)
    requires Based(objs, s, bases, start, buf)
    requires Raw(objs, s == Text, bases, start, buf) && Blank(objs, s == Text, bases, start, buf)
    requires Room(objs, s == Text, bases, start, |buf|)
    ensures Bytewise(objs, s, buf)
  {
    forall x, k, y ensures ByteHeld(objs, s, buf, x, k, y) { HeldThere(objs, s, bases, start, buf, x, k, y); }
    forall x ensures Owned(objs, s, buf, x) { OwnedThere(objs, s, bases, start, buf, x); }
  }

  lemma HeldThere(objs: seq<Object>, s: Section, bases: seq<nat>, start: nat, buf: seq<u8>, x: int, k: int, y: int)
    requires Based(objs, s, bases, start, buf)
    requires Raw(objs, s == Text, bases, start, buf) && Room(objs, s == Text, bases, start, |buf|)
    ensures ByteHeld(objs, s, buf, x, k, y)
  {
    if Holds(objs, s, x, k, y) {
      assert x == bases[k] - start + y;
      HeldByte(objs, s, bases, start, buf, k, y);
    }
  }

  lemma HeldByte(objs: seq<Object>, s: Section, bases: seq<nat>, start: nat, buf: seq<u8>, k: int, y: int)
    requires (s == Text || s == Data) && 0 <= k < |objs| && |bases| == |objs| && 0 <= y < |Body(objs[k], s)|
    requires Raw(objs, s == Text, bases, start, buf) && Room(objs, s == Text, bases, start, |buf|)
    ensures var x := bases[k] - start + y;
      0 <= x < |buf| && (Covered(objs[k], s == Text, y) || buf[x] == Body(objs[k], s)[y])
  {
    assert Sec(objs[k], s == Text) == Body(objs[k], s);
  }

  lemma OwnedThere(objs: seq<Object>, s: Section, bases: seq<nat>, start: nat, buf: seq<u8>, x: int)
    requires Based(objs, s, bases, start, buf) && Blank(objs, s == Text, bases, start, buf)
    ensures Owned(objs, s, buf, x)
  {
    if 0 <= x < |buf| && buf[x] != 0 {
      var k :| InSection(objs, s == Text, bases, start, k, x);
      assert Sec(objs[k], s == Text) == Body(objs[k], s);
      assert Holds(objs, s, x, k, x - Begin(objs, s, k));
    }
  }

  lemma FieldPatched(objs: seq<Object>, lay: Layout, text: seq<u8>, data: seq<u8>, j: int, q: int)
    requires Fits(objs, lay, text, data) && 0 <= j < |objs| && 0 <= q < |objs[j].relocs|
    requires Applied(objs, lay, true, lay.text, lay.origin, text, j, q)
    requires Applied(objs, lay, false, lay.data, lay.dataStart, data, j, q)
    ensures Patched(objs, lay.origin, text, data, j, q)
  {
    var r := objs[j].relocs[q];
    assert FitsAt(objs, lay, j);
    var k, l :| Resolves(objs, j, r.symbol, k, l) && if r.inText
      then Read32(text, lay.text[j] - lay.origin + r.offset) == Placement.Value(AddressOf(objs, lay, k, l), r.addend)
      else Read32(data, lay.data[j] - lay.dataStart + r.offset) == Placement.Value(AddressOf(objs, lay, k, l),
          r.addend);
    Resolved(objs, j, r.symbol, k, l);
    AddressStands(objs, lay, text, data, k, l);
  }

  lemma BothParts(objs: seq<Object>, lay: Layout, text: seq<u8>, data: seq<u8>)
    requires LaidOut(objs, lay) && Fits(objs, lay, text, data) && Linked(objs, lay, text, data)
    ensures Bytewise(objs, Text, text) && Bytewise(objs, Data, data)
  {
    RoomOf(objs, lay);
    forall i | 0 <= i < |objs|
      ensures lay.text[i] == lay.origin + Begin(objs, Text, i) && lay.data[i] == lay.dataStart + Begin(objs, Data, i)
    {
      assert FitsAt(objs, lay, i);
    }
    PartBytes(objs, Text, lay.text, lay.origin, text);
    PartBytes(objs, Data, lay.data, lay.dataStart, data);
  }

  lemma LinkedIsImage(objs: seq<Object>, lay: Layout, text: seq<u8>, data: seq<u8>, g: map<Name, nat>)
    requires LaidOut(objs, lay) && Tight(objs, lay) && lay.origin % PAGE == 0
    requires Addresses(objs, lay, g) && Linked(objs, lay, text, data)
    ensures ImageOf(objs, lay.origin, text, data, g)
  {
    LayoutFits(objs, lay, text, data);
    BothParts(objs, lay, text, data);
    forall j, l, n | Definer(objs, j, l, n) ensures n in g && Stands(objs, lay.origin, text, data, j, l, g[n]) {
      AddressStands(objs, lay, text, data, j, l);
    }
    forall j, q | 0 <= j < |objs| && 0 <= q < |objs[j].relocs| ensures Patched(objs, lay.origin, text, data, j, q) {
      assert Applied(objs, lay, true, lay.text, lay.origin, text, j, q);
      assert Applied(objs, lay, false, lay.data, lay.dataStart, data, j, q);
      FieldPatched(objs, lay, text, data, j, q);
    }
  }
}
