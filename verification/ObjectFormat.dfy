/** Relocatable object files and their encoding. Names are the bytes of their text encoding. */
module ObjectFormat {
  import opened Bytes
  import opened Words

  type Name = seq<u8>
  type i32 = x: int | -0x8000_0000 <= x < 0x8000_0000

  datatype Section = Undef | Text | Data | Bss | Abs
  datatype Symbol = Symbol(name: Name, section: Section, global: bool, value: u32)

  /** inText says whether the field patched is in the text or in the data. */
  datatype Reloc = Reloc(inText: bool, offset: u32, symbol: u32, addend: i32)

  datatype Object = Object(name: Name, text: seq<u8>, data: seq<u8>, bssSize: u32, symbols: seq<Symbol>,
      relocs: seq<Reloc>)

  datatype Parsed = Ok(obj: Object) | Bad

  const OBJ_MAGIC: u32 := 0x314A_424F
  const OBJ_VERSION: u32 := 1

  predicate NulFree(s: Name) { forall i :: 0 <= i < |s| ==> s[i] != 0 }

  // ---- little-endian words ----

  function Word(v: u32): (w: seq<u8>)
    ensures |w| == 4
  {
    [v % 0x100, v / 0x100 % 0x100, v / 0x1_0000 % 0x100, v / 0x100_0000]
  }

  lemma WordRead(v: u32)
    ensures Read32(Word(v), 0) == v
  {
    DivDiv(v, 0x100, 0x100);
    DivDiv(v, 0x1_0000, 0x100);
  }

  /** A word inside a larger buffer. */
  lemma ReadInside(a: seq<u8>, b: seq<u8>, c: seq<u8>, k: nat)
    requires k + 4 <= |b|
    ensures Read32(a + b + c, |a| + k) == Read32(b, k)
  {
    var s := a + b + c;
    assert s[|a| + k] == b[k] && s[|a| + k + 1] == b[k + 1] && s[|a| + k + 2] == b[k + 2] && s[|a| + k + 3] == b[k + 3];
  }

  function ToInt(w: u32): i32 { if w >= 0x8000_0000 then w - 0x1_0000_0000 else w }
  function FromInt(x: i32): u32 { if x < 0 then x + 0x1_0000_0000 else x }

  // ---- names ----

  /** The bytes from off up to a NUL or the end. */
  function CString(b: seq<u8>, off: nat): Name
    decreases if off < |b| then |b| - off else 0
  {
    if off >= |b| || b[off] == 0 then [] else [b[off]] + CString(b, off + 1)
  }

  /** v stands at off, ended by a NUL. */
  predicate NameAt(b: seq<u8>, off: nat, v: Name) {
    off + |v| < |b| && b[off..off + |v|] == v && b[off + |v|] == 0
  }

  lemma {:induction false} NameReads(b: seq<u8>, off: nat, v: Name)
    requires NameAt(b, off, v) && NulFree(v)
    ensures CString(b, off) == v
    decreases |v|
  {
    if v != [] {
      assert b[off] == b[off..off + |v|][0] == v[0];
      assert b[off + 1..off + 1 + |v[1..]|] == b[off..off + |v|][1..];
      NameReads(b, off + 1, v[1..]);
      assert v == [v[0]] + v[1..];
    }
  }

  lemma NameStays(b: seq<u8>, more: seq<u8>, off: nat, v: Name)
    requires NameAt(b, off, v)
    ensures NameAt(b + more, off, v)
  {
    assert (b + more)[off..off + |v|] == b[off..off + |v|];
  }

  /** Names, each once, ended by NULs; the empty one is at offset 0. */
  class StringTable {
    var bytes: seq<u8>
    var offsets: map<Name, nat>

    ghost predicate Valid()
      reads this
    {
      forall v :: v in offsets ==> NameAt(bytes, offsets[v], v)
    }

    constructor ()
      ensures Valid() && |bytes| == 1
    {
      bytes, offsets := [0], map[[] := 0];
    }

    /** The offset of a name, added when it is new; names already there keep theirs. */
    method Intern(v: Name) returns (off: nat)
      requires Valid() && NulFree(v)
      modifies this
      ensures Valid() && v in offsets && offsets[v] == off && NameAt(bytes, off, v)
      ensures old(bytes) <= bytes && |bytes| <= old(|bytes|) + |v| + 1
      ensures forall u :: u in old(offsets) ==> u in offsets && offsets[u] == old(offsets[u])
    {
      if v in offsets {
        return offsets[v];
      }
      off := |bytes|;
      ghost var before := bytes;
      bytes := bytes + v + [0];
      offsets := offsets[v := off];
      assert bytes == before + (v + [0]);
      forall u | u in offsets ensures NameAt(bytes, offsets[u], u) {
        if u == v { assert bytes[off..off + |v|] == v; } else { NameStays(before, v + [0], offsets[u], u); }
      }
    }
  }

  // ---- reading ----

  datatype Header = Header(nameOff: u32, textSize: u32, dataSize: u32, bssSize: u32, symCount: u32, relocCount: u32,
      strtabSize: u32)

  function HeaderOf(b: seq<u8>): Header
    requires |b| >= 36
  {
    Header(Read32(b, 8), Read32(b, 12), Read32(b, 16), Read32(b, 20), Read32(b, 24), Read32(b, 28), Read32(b, 32))
  }

  function SymStart(h: Header): nat { 36 + h.textSize + h.dataSize }
  function RelocStart(h: Header): nat { SymStart(h) + 12 * h.symCount }
  function StrStart(h: Header): nat { RelocStart(h) + 16 * h.relocCount }

  function SectionOf(code: u8): Section {
    if code == 0 then Undef else if code == 1 then Text else if code == 2 then Data else if code == 3 then Bss else Abs
  }

  function CodeOf(s: Section): u8 {
    match s case Undef => 0 case Text => 1 case Data => 2 case Bss => 3 case Abs => 4
  }

  function SymAt(b: seq<u8>, base: nat, strtab: seq<u8>): Symbol
    requires base + 12 <= |b|
  {
    Symbol(CString(strtab, Read32(b, base)), SectionOf(b[base + 4]), b[base + 5] == 1, Read32(b, base + 8))
  }

  function RelocAt(b: seq<u8>, base: nat): Reloc
    requires base + 16 <= |b|
  {
    Reloc(b[base] == 1, Read32(b, base + 4), Read32(b, base + 8), ToInt(Read32(b, base + 12)))
  }

  /** What parsing accepts. */
  predicate WellFormed(b: seq<u8>) {
    && |b| >= 36 && Read32(b, 0) == OBJ_MAGIC && Read32(b, 4) == OBJ_VERSION
    && var h := HeaderOf(b);
      && StrStart(h) + h.strtabSize <= |b|
      && (forall i :: 0 <= i < h.symCount ==> SymOk(b, SymStart(h), i))
      && (forall i :: 0 <= i < h.relocCount ==> RelocOk(b, RelocStart(h), i))
  }

  predicate SymOk(b: seq<u8>, start: nat, i: nat) {
    var base := start + 12 * i;
    base + 12 <= |b| && b[base + 4] <= 4
  }

  predicate RelocOk(b: seq<u8>, start: nat, i: nat) {
    var base := start + 16 * i;
    base + 16 <= |b| && (b[base] == 1 || b[base] == 2) && b[base + 1] == 1
  }

  /** The object that bytes stand for. */
  function Meaning(b: seq<u8>): Parsed {
    if !WellFormed(b) then Bad
    else
      var h := HeaderOf(b);
      var strtab := b[StrStart(h)..StrStart(h) + h.strtabSize];
      Ok(Object(
        CString(strtab, h.nameOff),
        b[36..36 + h.textSize],
        b[36 + h.textSize..SymStart(h)],
        h.bssSize,
        SymbolsOf(b, h, strtab),
        RelocsOf(b, h)))
  }

  function SymbolsOf(b: seq<u8>, h: Header, strtab: seq<u8>): (s: seq<Symbol>)
    ensures |s| == h.symCount && forall i :: 0 <= i < h.symCount ==> s[i] == SymIn(b, SymStart(h), i, strtab)
  {
    seq(h.symCount, i requires 0 <= i < h.symCount => SymIn(b, SymStart(h), i, strtab))
  }

  function RelocsOf(b: seq<u8>, h: Header): (s: seq<Reloc>)
    ensures |s| == h.relocCount && forall i :: 0 <= i < h.relocCount ==> s[i] == RelocIn(b, RelocStart(h), i)
  {
    seq(h.relocCount, i requires 0 <= i < h.relocCount => RelocIn(b, RelocStart(h), i))
  }

  function SymIn(b: seq<u8>, start: nat, i: nat, strtab: seq<u8>): Symbol {
    var base := start + 12 * i;
    if base + 12 <= |b| then SymAt(b, base, strtab) else Symbol([], Undef, false, 0)
  }

  function RelocIn(b: seq<u8>, start: nat, i: nat): Reloc {
    var base := start + 16 * i;
    if base + 16 <= |b| then RelocAt(b, base) else Reloc(false, 0, 0, 0)
  }

  /** Parses, refusing exactly the bytes that are not well formed. */
  method ParseObject(b: seq<u8>) returns (r: Parsed)
    ensures r == Meaning(b)
  {
    if |b| < 36 || Read32(b, 0) != OBJ_MAGIC {
      return Bad;
    }
    if Read32(b, 4) != OBJ_VERSION {
      return Bad;
    }
    var h := HeaderOf(b);
    if StrStart(h) + h.strtabSize > |b| {
      return Bad;
    }
    var strtab := b[StrStart(h)..StrStart(h) + h.strtabSize];
    var ok, symbols := ParseSymbols(b, h, strtab);
    if !ok {
      return Bad;
    }
    var fine, relocs := ParseRelocs(b, h);
    if !fine {
      return Bad;
    }
    r := Ok(Object(CString(strtab, h.nameOff), b[36..36 + h.textSize], b[36 + h.textSize..SymStart(h)], h.bssSize,
        symbols, relocs));
  }

  method ParseSymbols(b: seq<u8>, h: Header, strtab: seq<u8>) returns (ok: bool, symbols: seq<Symbol>)
    requires RelocStart(h) <= |b|
    ensures ok <==> forall i :: 0 <= i < h.symCount ==> SymOk(b, SymStart(h), i)
    ensures ok ==> symbols == SymbolsOf(b, h, strtab)
  {
    symbols := [];
    var i := 0;
    while i < h.symCount
      invariant 0 <= i <= h.symCount && |symbols| == i
      invariant forall j :: 0 <= j < i ==> SymOk(b, SymStart(h), j)
      invariant forall j :: 0 <= j < i ==> symbols[j] == SymIn(b, SymStart(h), j, strtab)
    {
      var base := SymStart(h) + 12 * i;
      if b[base + 4] > 4 {
        assert !SymOk(b, SymStart(h), i);
        return false, [];
      }
      symbols := symbols + [SymAt(b, base, strtab)];
      i := i + 1;
    }
    ok := true;
  }

  method ParseRelocs(b: seq<u8>, h: Header) returns (ok: bool, relocs: seq<Reloc>)
    requires StrStart(h) <= |b|
    ensures ok <==> forall i :: 0 <= i < h.relocCount ==> RelocOk(b, RelocStart(h), i)
    ensures ok ==> relocs == RelocsOf(b, h)
  {
    relocs := [];
    var i := 0;
    while i < h.relocCount
      invariant 0 <= i <= h.relocCount && |relocs| == i
      invariant forall j :: 0 <= j < i ==> RelocOk(b, RelocStart(h), j)
      invariant forall j :: 0 <= j < i ==> relocs[j] == RelocIn(b, RelocStart(h), j)
    {
      var base := RelocStart(h) + 16 * i;
      if (b[base] != 1 && b[base] != 2) || b[base + 1] != 1 {
        assert !RelocOk(b, RelocStart(h), i);
        return false, [];
      }
      relocs := relocs + [RelocAt(b, base)];
      i := i + 1;
    }
    ok := true;
  }

  // ---- writing ----

  function NamesSize(symbols: seq<Symbol>): nat {
    if symbols == [] then 0 else NamesSize(symbols[..|symbols| - 1]) + |symbols[|symbols| - 1].name| + 1
  }

  /** Names without NULs, and counts and sizes that fit their 32-bit fields. */
  predicate Encodable(o: Object) {
    && NulFree(o.name) && (forall i :: 0 <= i < |o.symbols| ==> NulFree(o.symbols[i].name))
    && |o.text| < 0x1_0000_0000 && |o.data| < 0x1_0000_0000 && |o.symbols| < 0x1_0000_0000 && |o.relocs| < 0x1_0000_0000
    && |o.name| + NamesSize(o.symbols) + 2 < 0x1_0000_0000
  }

  function SymBytes(sym: Symbol, nameOff: u32): (b: seq<u8>)
    ensures |b| == 12
  {
    Word(nameOff) + [CodeOf(sym.section), if sym.global then 1 else 0, 0, 0] + Word(sym.value)
  }

  function RelocBytes(r: Reloc): (b: seq<u8>)
    ensures |b| == 16
  {
    [if r.inText then 1 else 2, 1, 0, 0] + Word(r.offset) + Word(r.symbol) + Word(FromInt(r.addend))
  }

  function HeaderBytes(h: Header): (b: seq<u8>)
    ensures |b| == 36
  {
    Word(OBJ_MAGIC) + Word(OBJ_VERSION) + Word(h.nameOff) + Word(h.textSize) + Word(h.dataSize) + Word(h.bssSize)
    + Word(h.symCount) + Word(h.relocCount) + Word(h.strtabSize)
  }

  /** A slice of the buffer reads as it would alone. */
  lemma ReadSlice(b: seq<u8>, base: nat, piece: seq<u8>, k: nat)
    requires base + |piece| <= |b| && b[base..base + |piece|] == piece && k + 4 <= |piece|
    ensures Read32(b, base + k) == Read32(piece, k)
  {
    assert b[base..base + |piece|][k] == b[base + k] && b[base..base + |piece|][k + 1] == b[base + k + 1];
    assert b[base..base + |piece|][k + 2] == b[base + k + 2] && b[base..base + |piece|][k + 3] == b[base + k + 3];
  }

  /** A word in the middle of a piece. */
  lemma PieceWord(a: seq<u8>, v: u32, c: seq<u8>)
    ensures Read32(a + Word(v) + c, |a|) == v
  {
    ReadInside(a, Word(v), c, 0);
    WordRead(v);
  }

  lemma SymDecodes(b: seq<u8>, start: nat, i: nat, base: nat, sym: Symbol, off: u32, strtab: seq<u8>)
    requires base == start + 12 * i && base + 12 <= |b| && b[base..base + 12] == SymBytes(sym, off)
      && NameAt(strtab, off, sym.name) && NulFree(sym.name)
    ensures SymOk(b, start, i) && SymIn(b, start, i, strtab) == sym
  {
    var piece := SymBytes(sym, off);
    var mid := [CodeOf(sym.section), if sym.global then 1 else 0, 0, 0];
    ReadSlice(b, base, piece, 0);
    ReadSlice(b, base, piece, 8);
    assert piece == [] + Word(off) + (mid + Word(sym.value));
    PieceWord([], off, mid + Word(sym.value));
    assert piece == (Word(off) + mid) + Word(sym.value) + [];
    PieceWord(Word(off) + mid, sym.value, []);
    assert b[base..base + 12][4] == b[base + 4] && b[base..base + 12][5] == b[base + 5];
    NameReads(strtab, off, sym.name);
  }

  lemma RelocDecodes(b: seq<u8>, start: nat, i: nat, base: nat, r: Reloc)
    requires base == start + 16 * i && base + 16 <= |b| && b[base..base + 16] == RelocBytes(r)
    ensures RelocOk(b, start, i) && RelocIn(b, start, i) == r
  {
    var piece := RelocBytes(r);
    var first := [if r.inText then 1 else 2, 1, 0, 0];
    var w := Word(FromInt(r.addend));
    ReadSlice(b, base, piece, 4);
    ReadSlice(b, base, piece, 8);
    ReadSlice(b, base, piece, 12);
    assert piece == first + Word(r.offset) + (Word(r.symbol) + w);
    PieceWord(first, r.offset, Word(r.symbol) + w);
    assert piece == (first + Word(r.offset)) + Word(r.symbol) + w;
    PieceWord(first + Word(r.offset), r.symbol, w);
    assert piece == (first + Word(r.offset) + Word(r.symbol)) + w + [];
    PieceWord(first + Word(r.offset) + Word(r.symbol), FromInt(r.addend), []);
    assert b[base..base + 16][0] == b[base] && b[base..base + 16][1] == b[base + 1];
  }

  /** A word that sits at the end of so many others. */
  lemma HeaderWord(pre: seq<u8>, v: u32, post: seq<u8>, b: seq<u8>, k: nat)
    requires |b| >= 36 && b[..36] == pre + Word(v) + post && k == |pre|
    ensures Read32(b, k) == v
  {
    PieceWord(pre, v, post);
    assert b[0..36] == b[..36];
    ReadSlice(b, 0, pre + Word(v) + post, k);
  }

  lemma HeaderDecodes(b: seq<u8>, h: Header)
    requires |b| >= 36 && b[..36] == HeaderBytes(h)
    ensures Read32(b, 0) == OBJ_MAGIC && Read32(b, 4) == OBJ_VERSION && HeaderOf(b) == h
  {
    var m, v := Word(OBJ_MAGIC), Word(OBJ_VERSION);
    var w0, w1, w2, w3, w4, w5, w6 := Word(h.nameOff), Word(h.textSize), Word(h.dataSize), Word(h.bssSize),
        Word(h.symCount), Word(h.relocCount), Word(h.strtabSize);
    HeaderFirst(b, h);
    assert b[..36] == (m + v + w0) + w1 + (w2 + w3 + w4 + w5 + w6);
    HeaderWord(m + v + w0, h.textSize, w2 + w3 + w4 + w5 + w6, b, 12);
    assert b[..36] == (m + v + w0 + w1) + w2 + (w3 + w4 + w5 + w6);
    HeaderWord(m + v + w0 + w1, h.dataSize, w3 + w4 + w5 + w6, b, 16);
    assert b[..36] == (m + v + w0 + w1 + w2) + w3 + (w4 + w5 + w6);
    HeaderWord(m + v + w0 + w1 + w2, h.bssSize, w4 + w5 + w6, b, 20);
    HeaderLast(b, h);
  }

  lemma HeaderFirst(b: seq<u8>, h: Header)
    requires |b| >= 36 && b[..36] == HeaderBytes(h)
    ensures Read32(b, 0) == OBJ_MAGIC && Read32(b, 4) == OBJ_VERSION && Read32(b, 8) == h.nameOff
  {
    var m, v := Word(OBJ_MAGIC), Word(OBJ_VERSION);
    var rest := Word(h.textSize) + Word(h.dataSize) + Word(h.bssSize)
      + Word(h.symCount) + Word(h.relocCount) + Word(h.strtabSize);
    assert b[..36] == [] + m + (v + Word(h.nameOff) + rest);
    HeaderWord([], OBJ_MAGIC, v + Word(h.nameOff) + rest, b, 0);
    assert b[..36] == m + v + (Word(h.nameOff) + rest);
    HeaderWord(m, OBJ_VERSION, Word(h.nameOff) + rest, b, 4);
    assert b[..36] == (m + v) + Word(h.nameOff) + rest;
    HeaderWord(m + v, h.nameOff, rest, b, 8);
  }

  lemma HeaderLast(b: seq<u8>, h: Header)
    requires |b| >= 36 && b[..36] == HeaderBytes(h)
    ensures Read32(b, 24) == h.symCount && Read32(b, 28) == h.relocCount && Read32(b, 32) == h.strtabSize
  {
    var pre := Word(OBJ_MAGIC) + Word(OBJ_VERSION) + Word(h.nameOff)
      + Word(h.textSize) + Word(h.dataSize) + Word(h.bssSize);
    var w4, w5, w6 := Word(h.symCount), Word(h.relocCount), Word(h.strtabSize);
    assert b[..36] == pre + w4 + (w5 + w6);
    HeaderWord(pre, h.symCount, w5 + w6, b, 24);
    assert b[..36] == (pre + w4) + w5 + w6;
    HeaderWord(pre + w4, h.relocCount, w6, b, 28);
    assert b[..36] == (pre + w4 + w5) + w6 + [];
    HeaderWord(pre + w4 + w5, h.strtabSize, [], b, 32);
  }

  /** The pieces of an encoded object, laid end to end. */
  ghost predicate Pieces(o: Object, offs: seq<u32>, syms: seq<u8>, relocs: seq<u8>, strtab: seq<u8>, nameOff: u32) {
    && |offs| == |o.symbols| && |syms| == 12 * |o.symbols| && |relocs| == 16 * |o.relocs|
    && (forall j :: 0 <= j < |o.symbols| ==>
        SymPiece(syms, j, o.symbols[j], offs[j]) && NameAt(strtab, offs[j], o.symbols[j].name))
    && (forall j :: 0 <= j < |o.relocs| ==> RelocPiece(relocs, j, o.relocs[j]))
    && NameAt(strtab, nameOff, o.name)
  }

  predicate SymPiece(syms: seq<u8>, j: nat, sym: Symbol, off: u32) {
    12 * j + 12 <= |syms| && syms[12 * j..12 * j + 12] == SymBytes(sym, off)
  }

  predicate RelocPiece(relocs: seq<u8>, j: nat, r: Reloc) {
    16 * j + 16 <= |relocs| && relocs[16 * j..16 * j + 16] == RelocBytes(r)
  }

  /** Where each piece of a concatenation is. */
  lemma Sliced(h: seq<u8>, t: seq<u8>, d: seq<u8>, y: seq<u8>, r: seq<u8>, z: seq<u8>, b: seq<u8>)
    requires b == h + t + d + y + r + z
    ensures |b| == |h| + |t| + |d| + |y| + |r| + |z| && b[..|h|] == h && b[|h|..|h| + |t|] == t
      && b[|h| + |t|..|h| + |t| + |d|] == d
    ensures var at := |h| + |t| + |d|;
      b[at..at + |y|] == y && b[at + |y|..at + |y| + |r|] == r && b[at + |y| + |r|..at + |y| + |r| + |z|] == z
  {
  }

  lemma SubSlice(b: seq<u8>, start: nat, piece: seq<u8>, off: nat, n: nat)
    requires start + |piece| <= |b| && b[start..start + |piece|] == piece && off + n <= |piece|
    ensures b[start + off..start + off + n] == piece[off..off + n]
  {
    var x := b[start + off..start + off + n];
    forall k | 0 <= k < n ensures x[k] == piece[off..off + n][k] {
      assert b[start..start + |piece|][off + k] == b[start + off + k];
    }
  }

  /** Reading back what the pieces make up gives the object. */
  lemma PiecesMean(o: Object, offs: seq<u32>, syms: seq<u8>, relocs: seq<u8>, strtab: seq<u8>, h: Header, b: seq<u8>)
    requires Encodable(o) && Pieces(o, offs, syms, relocs, strtab, h.nameOff) && |strtab| < 0x1_0000_0000
    requires h == Header(h.nameOff, |o.text|, |o.data|, o.bssSize, |o.symbols|, |o.relocs|, |strtab|)
    requires b == HeaderBytes(h) + o.text + o.data + syms + relocs + strtab
    ensures Meaning(b) == Ok(o)
  {
    Places(o, syms, relocs, strtab, h, b);
    PlacedMean(o, offs, syms, relocs, strtab, h, b);
  }

  lemma PlacedMean(o: Object, offs: seq<u32>, syms: seq<u8>, relocs: seq<u8>, strtab: seq<u8>, h: Header, b: seq<u8>)
    requires Encodable(o) && Pieces(o, offs, syms, relocs, strtab, h.nameOff)
    requires h.textSize == |o.text| && h.dataSize == |o.data| && h.bssSize == o.bssSize && h.symCount == |o.symbols|
      && h.relocCount == |o.relocs|
    requires |b| >= 36 && b[..36] == HeaderBytes(h) && StrStart(h) + h.strtabSize == |b|
    requires b[36..36 + h.textSize] == o.text && b[36 + h.textSize..SymStart(h)] == o.data
    requires b[SymStart(h)..SymStart(h) + |syms|] == syms && b[RelocStart(h)..RelocStart(h) + |relocs|] == relocs
    requires b[StrStart(h)..StrStart(h) + h.strtabSize] == strtab
    ensures Meaning(b) == Ok(o)
  {
    HeaderDecodes(b, h);
    NameReads(strtab, h.nameOff, o.name);
    SymbolsMean(o, offs, syms, strtab, b, SymStart(h));
    RelocsMean(o, relocs, b, RelocStart(h));
    MeaningIs(o, b, h, strtab);
  }

  lemma Places(o: Object, syms: seq<u8>, relocs: seq<u8>, strtab: seq<u8>, h: Header, b: seq<u8>)
    requires h.textSize == |o.text| && h.dataSize == |o.data| && h.symCount == |o.symbols| && h.relocCount == |o.relocs|
      && h.strtabSize == |strtab|
    requires |syms| == 12 * |o.symbols| && |relocs| == 16 * |o.relocs|
    requires b == HeaderBytes(h) + o.text + o.data + syms + relocs + strtab
    ensures |b| >= 36 && b[..36] == HeaderBytes(h) && StrStart(h) + h.strtabSize == |b|
    ensures b[36..36 + h.textSize] == o.text && b[36 + h.textSize..SymStart(h)] == o.data
    ensures b[SymStart(h)..SymStart(h) + |syms|] == syms && b[RelocStart(h)..RelocStart(h) + |relocs|] == relocs
    ensures b[StrStart(h)..StrStart(h) + h.strtabSize] == strtab
  {
    Sliced(HeaderBytes(h), o.text, o.data, syms, relocs, strtab, b);
  }

  lemma SymbolsMean(o: Object, offs: seq<u32>, syms: seq<u8>, strtab: seq<u8>, b: seq<u8>, start: nat)
    requires |offs| == |o.symbols| && |syms| == 12 * |o.symbols| && start + |syms| <= |b|
      && b[start..start + |syms|] == syms
    requires forall j :: 0 <= j < |o.symbols| ==>
      SymPiece(syms, j, o.symbols[j], offs[j]) && NameAt(strtab, offs[j], o.symbols[j].name)
    requires forall j :: 0 <= j < |o.symbols| ==> NulFree(o.symbols[j].name)
    ensures forall j :: 0 <= j < |o.symbols| ==> SymOk(b, start, j) && SymIn(b, start, j, strtab) == o.symbols[j]
  {
    forall j | 0 <= j < |o.symbols| ensures SymOk(b, start, j) && SymIn(b, start, j, strtab) == o.symbols[j] {
      var base := start + 12 * j;
      assert SymPiece(syms, j, o.symbols[j], offs[j]);
      SubSlice(b, start, syms, 12 * j, 12);
      SymDecodes(b, start, j, base, o.symbols[j], offs[j], strtab);
    }
  }

  lemma RelocsMean(o: Object, relocs: seq<u8>, b: seq<u8>, start: nat)
    requires |relocs| == 16 * |o.relocs| && start + |relocs| <= |b| && b[start..start + |relocs|] == relocs
    requires forall j :: 0 <= j < |o.relocs| ==> RelocPiece(relocs, j, o.relocs[j])
    ensures forall j :: 0 <= j < |o.relocs| ==> RelocOk(b, start, j) && RelocIn(b, start, j) == o.relocs[j]
  {
    forall j | 0 <= j < |o.relocs| ensures RelocOk(b, start, j) && RelocIn(b, start, j) == o.relocs[j] {
      var base := start + 16 * j;
      assert RelocPiece(relocs, j, o.relocs[j]);
      SubSlice(b, start, relocs, 16 * j, 16);
      RelocDecodes(b, start, j, base, o.relocs[j]);
    }
  }

  lemma MeaningIs(o: Object, b: seq<u8>, h: Header, strtab: seq<u8>)
    requires |b| >= 36 && Read32(b, 0) == OBJ_MAGIC && Read32(b, 4) == OBJ_VERSION && HeaderOf(b) == h
    requires StrStart(h) + h.strtabSize <= |b| && b[StrStart(h)..StrStart(h) + h.strtabSize] == strtab
    requires h.symCount == |o.symbols| && h.relocCount == |o.relocs| && h.bssSize == o.bssSize
      && CString(strtab, h.nameOff) == o.name
    requires b[36..36 + h.textSize] == o.text && b[36 + h.textSize..SymStart(h)] == o.data
    requires forall j :: 0 <= j < |o.symbols| ==>
      SymOk(b, SymStart(h), j) && SymIn(b, SymStart(h), j, strtab) == o.symbols[j]
    requires forall j :: 0 <= j < |o.relocs| ==>
      RelocOk(b, RelocStart(h), j) && RelocIn(b, RelocStart(h), j) == o.relocs[j]
    ensures Meaning(b) == Ok(o)
  {
    assert WellFormed(b);
    SymbolsSame(o, b, h, strtab);
    RelocsSame(o, b, h);
  }

  lemma SymbolsSame(o: Object, b: seq<u8>, h: Header, strtab: seq<u8>)
    requires h.symCount == |o.symbols|
    requires forall j :: 0 <= j < |o.symbols| ==>
      SymOk(b, SymStart(h), j) && SymIn(b, SymStart(h), j, strtab) == o.symbols[j]
    ensures SymbolsOf(b, h, strtab) == o.symbols
  {
    forall j | 0 <= j < |o.symbols| ensures SymbolsOf(b, h, strtab)[j] == o.symbols[j] {
      assert SymOk(b, SymStart(h), j);
    }
  }

  lemma RelocsSame(o: Object, b: seq<u8>, h: Header)
    requires h.relocCount == |o.relocs|
    requires forall j :: 0 <= j < |o.relocs| ==>
      RelocOk(b, RelocStart(h), j) && RelocIn(b, RelocStart(h), j) == o.relocs[j]
    ensures RelocsOf(b, h) == o.relocs
  {
    forall j | 0 <= j < |o.relocs| ensures RelocsOf(b, h)[j] == o.relocs[j] { assert RelocOk(b, RelocStart(h), j); }
  }

  /** Encodes an object; parsing the result gives the object back. */
  method EncodeObject(o: Object) returns (buf: seq<u8>)
    requires Encodable(o)
    ensures Meaning(buf) == Ok(o)
  {
    var table := new StringTable();
    var nameOff, offs := InternNames(o, table);
    var syms := EncodeSymbols(o.symbols, offs);
    var relocs := EncodeRelocs(o.relocs);
    var h := Header(nameOff, |o.text|, |o.data|, o.bssSize, |o.symbols|, |o.relocs|, |table.bytes|);
    buf := HeaderBytes(h) + o.text + o.data + syms + relocs + table.bytes;
    PiecesMean(o, offs, syms, relocs, table.bytes, h, buf);
  }

  method InternNames(o: Object, table: StringTable) returns (nameOff: u32, offs: seq<u32>)
    requires Encodable(o) && table.Valid() && |table.bytes| == 1
    modifies table
    ensures table.Valid() && |table.bytes| < 0x1_0000_0000 && |offs| == |o.symbols|
      && NameAt(table.bytes, nameOff, o.name)
    ensures forall j :: 0 <= j < |o.symbols| ==> NameAt(table.bytes, offs[j], o.symbols[j].name)
  {
    var at := table.Intern(o.name);
    nameOff := at;
    offs := [];
    var i := 0;
    while i < |o.symbols|
      invariant 0 <= i <= |o.symbols| && |offs| == i && table.Valid() && o.name in table.offsets
        && table.offsets[o.name] == nameOff
      invariant |table.bytes| <= 2 + |o.name| + NamesSize(o.symbols[..i])
      invariant Interned(table.offsets, o.symbols, offs, i)
    {
      NamesGrow(o.symbols, i);
      ghost var before := table.offsets;
      var off := InternOne(table, o.symbols[i].name);
      InternedNext(before, table.offsets, o.symbols, offs, i, off);
      offs := offs + [off];
      i := i + 1;
    }
    assert o.symbols[..i] == o.symbols;
  }

  /** The offsets of the first n names are recorded. */
  ghost predicate Interned(offsets: map<Name, nat>, symbols: seq<Symbol>, offs: seq<u32>, n: nat) {
    n <= |symbols| && n <= |offs|
      && forall j :: 0 <= j < n ==> symbols[j].name in offsets && offsets[symbols[j].name] == offs[j]
  }

  lemma InternedNext(before: map<Name, nat>, after: map<Name, nat>, symbols: seq<Symbol>, offs: seq<u32>, n: nat,
                     off: u32)
    requires Interned(before, symbols, offs, n) && n < |symbols| && n == |offs|
    requires symbols[n].name in after && after[symbols[n].name] == off
      && forall u :: u in before ==> u in after && after[u] == before[u]
    ensures Interned(after, symbols, offs + [off], n + 1)
  {
  }

  method InternOne(table: StringTable, name: Name) returns (off: u32)
    requires table.Valid() && NulFree(name) && |table.bytes| + |name| + 1 < 0x1_0000_0000
    modifies table
    ensures table.Valid() && name in table.offsets && table.offsets[name] == off
      && |table.bytes| <= old(|table.bytes|) + |name| + 1
    ensures forall u :: u in old(table.offsets) ==> u in table.offsets && table.offsets[u] == old(table.offsets[u])
  {
    var at := table.Intern(name);
    off := at;
  }

  /** The names of the first few symbols take no more room than all of them. */
  lemma NamesGrow(symbols: seq<Symbol>, i: nat)
    requires i < |symbols|
    ensures NamesSize(symbols[..i + 1]) == NamesSize(symbols[..i]) + |symbols[i].name| + 1
    ensures NamesSize(symbols[..i + 1]) <= NamesSize(symbols)
  {
    assert symbols[..i + 1][..i] == symbols[..i];
    NamesPrefix(symbols, i + 1);
  }

  lemma {:induction false} NamesPrefix(symbols: seq<Symbol>, n: nat)
    requires n <= |symbols|
    ensures NamesSize(symbols[..n]) <= NamesSize(symbols)
    decreases |symbols| - n
  {
    if n < |symbols| {
      assert symbols[..n + 1][..n] == symbols[..n];
      NamesPrefix(symbols, n + 1);
    } else {
      assert symbols[..n] == symbols;
    }
  }

  method EncodeSymbols(symbols: seq<Symbol>, offs: seq<u32>) returns (syms: seq<u8>)
    requires |offs| == |symbols|
    ensures |syms| == 12 * |symbols| && forall j :: 0 <= j < |symbols| ==> SymPiece(syms, j, symbols[j], offs[j])
  {
    syms := [];
    var i := 0;
    while i < |symbols|
      invariant 0 <= i <= |symbols| && |syms| == 12 * i
      invariant forall j :: 0 <= j < i ==> SymPiece(syms, j, symbols[j], offs[j])
    {
      ghost var before := syms;
      var piece := SymBytes(symbols[i], offs[i]);
      syms := syms + piece;
      forall j | 0 <= j < i + 1 ensures SymPiece(syms, j, symbols[j], offs[j]) {
        if j < i {
          assert SymPiece(before, j, symbols[j], offs[j]);
          assert syms[12 * j..12 * j + 12] == before[12 * j..12 * j + 12];
        } else {
          assert syms[12 * i..12 * i + 12] == piece;
        }
      }
      i := i + 1;
    }
  }

  method EncodeRelocs(relocs: seq<Reloc>) returns (bytes: seq<u8>)
    ensures |bytes| == 16 * |relocs| && forall j :: 0 <= j < |relocs| ==> RelocPiece(bytes, j, relocs[j])
  {
    bytes := [];
    var i := 0;
    while i < |relocs|
      invariant 0 <= i <= |relocs| && |bytes| == 16 * i
      invariant forall j :: 0 <= j < i ==> RelocPiece(bytes, j, relocs[j])
    {
      ghost var before := bytes;
      var piece := RelocBytes(relocs[i]);
      bytes := bytes + piece;
      forall j | 0 <= j < i + 1 ensures RelocPiece(bytes, j, relocs[j]) {
        if j < i {
          assert RelocPiece(before, j, relocs[j]);
          assert bytes[16 * j..16 * j + 16] == before[16 * j..16 * j + 16];
        } else {
          assert bytes[16 * i..16 * i + 16] == piece;
        }
      }
      i := i + 1;
    }
  }
}
