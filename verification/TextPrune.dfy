/** Cutting an object's text down to some of its blocks. */
module TextPrune {
  import opened Bytes
  import opened ObjectFormat
  import opened Placement
  import opened TextBlocks

  // ---- offsets ----

  /** Ranges of the text, in order and apart. */
  ghost predicate RangesOk(ranges: seq<Block>, size: nat) {
    && (forall k :: 0 <= k < |ranges| ==> ranges[k].start <= ranges[k].end <= size)
    && (forall j, k :: 0 <= j < k < |ranges| ==> ranges[j].end <= ranges[k].start)
  }

  /** How long the first k ranges are together. */
  function Cum(ranges: seq<Block>, k: nat): nat
    requires k <= |ranges| && forall j :: 0 <= j < |ranges| ==> ranges[j].start <= ranges[j].end
  {
    if k == 0 then 0 else Cum(ranges, k - 1) + (ranges[k - 1].end - ranges[k - 1].start)
  }

  lemma {:induction false} CumBelow(ranges: seq<Block>, size: nat, k: nat)
    requires RangesOk(ranges, size) && k < |ranges|
    ensures Cum(ranges, k) <= ranges[k].start
  {
    if k > 0 { CumBelow(ranges, size, k - 1); }
  }

  lemma {:induction false} CumGrows(ranges: seq<Block>, size: nat, j: nat, k: nat)
    requires RangesOk(ranges, size) && j < k <= |ranges|
    ensures Cum(ranges, j) + (ranges[j].end - ranges[j].start) <= Cum(ranges, k)
  {
    if j + 1 < k { CumGrows(ranges, size, j, k - 1); }
  }

  /** Every offset of the first n ranges goes where the ranges before its own end. */
  ghost predicate OffsetsTo(ranges: seq<Block>, size: nat, off: map<nat, nat>, n: nat) {
    && RangesOk(ranges, size) && n <= |ranges|
    && (forall k, x {:trigger InBlock(ranges[k], x)} :: 0 <= k < n && InBlock(ranges[k], x) ==>
        x in off && off[x] == Cum(ranges, k) + x - ranges[k].start)
    && (forall x :: x in off ==> InSome(ranges, n, x))
  }

  ghost predicate InSome(ranges: seq<Block>, n: nat, x: int) {
    exists k :: 0 <= k < n && k < |ranges| && InBlock(ranges[k], x)
  }

  /** The new offsets keep the order, leave no gap, and lie no later than the old ones. */
  ghost predicate Compacts(off: map<nat, nat>, size: nat) {
    && (forall x :: x in off ==> off[x] <= x && off[x] < size)
    && (forall x, y :: x in off && y in off && x < y ==> off[x] < off[y])
    && (forall z :: 0 <= z < size ==> Hit(off, z))
  }

  ghost predicate Hit(off: map<nat, nat>, z: int) { exists x :: x in off && off[x] == z }

  lemma OffsetAt(ranges: seq<Block>, size: nat, off: map<nat, nat>, x: nat) returns (k: nat)
    requires OffsetsTo(ranges, size, off, |ranges|) && x in off
    ensures k < |ranges| && InBlock(ranges[k], x) && off[x] == Cum(ranges, k) + x - ranges[k].start
    ensures off[x] <= x && off[x] < Cum(ranges, |ranges|)
  {
    assert InSome(ranges, |ranges|, x);
    k :| 0 <= k < |ranges| && InBlock(ranges[k], x);
    CumBelow(ranges, size, k);
    CumGrows(ranges, size, k, |ranges|);
  }

  lemma OffsetsOrder(ranges: seq<Block>, size: nat, off: map<nat, nat>, x: nat, y: nat)
    requires OffsetsTo(ranges, size, off, |ranges|) && x in off && y in off && x < y
    ensures off[x] < off[y]
  {
    var j := OffsetAt(ranges, size, off, x);
    var k := OffsetAt(ranges, size, off, y);
    if j < k { CumGrows(ranges, size, j, k); }
    if j > k { assert false; }
  }

  lemma {:induction false} OffsetsHit(ranges: seq<Block>, size: nat, off: map<nat, nat>, n: nat, z: nat)
    requires OffsetsTo(ranges, size, off, |ranges|) && n <= |ranges| && z < Cum(ranges, n)
    ensures Hit(off, z)
    decreases n
  {
    if z < Cum(ranges, n - 1) {
      OffsetsHit(ranges, size, off, n - 1, z);
    } else {
      var x := z - Cum(ranges, n - 1) + ranges[n - 1].start;
      assert InBlock(ranges[n - 1], x);
      assert x in off && off[x] == z;
    }
  }

  lemma OffsetsCompact(ranges: seq<Block>, size: nat, off: map<nat, nat>)
    requires OffsetsTo(ranges, size, off, |ranges|)
    ensures Compacts(off, Cum(ranges, |ranges|))
  {
    forall x | x in off ensures off[x] <= x && off[x] < Cum(ranges, |ranges|) {
      var k := OffsetAt(ranges, size, off, x);
    }
    forall x, y | x in off && y in off && x < y ensures off[x] < off[y] { OffsetsOrder(ranges, size, off, x, y); }
    forall z | 0 <= z < Cum(ranges, |ranges|) ensures Hit(off, z) { OffsetsHit(ranges, size, off, |ranges|, z); }
  }

  method MapOffsets(ranges: seq<Block>, ghost size: nat) returns (off: map<nat, nat>, textSize: nat)
    requires RangesOk(ranges, size)
    ensures OffsetsTo(ranges, size, off, |ranges|) && textSize == Cum(ranges, |ranges|)
  {
    off, textSize := map[], 0;
    var k := 0;
    while k < |ranges|
      invariant 0 <= k <= |ranges| && OffsetsTo(ranges, size, off, k) && textSize == Cum(ranges, k)
    {
      ghost var before := off;
      off := MapRange(off, ranges[k], textSize);
      RangeAdded(ranges, size, before, off, k);
      textSize := textSize + ranges[k].end - ranges[k].start;
      k := k + 1;
    }
  }

  method MapRange(off: map<nat, nat>, b: Block, base: nat) returns (off': map<nat, nat>)
    requires b.start <= b.end
    ensures forall x :: x in off' <==> x in off || InBlock(b, x)
    ensures forall x :: x in off' ==> off'[x] == if InBlock(b, x) then base + x - b.start else off[x]
  {
    off' := off;
    var pos := b.start;
    while pos < b.end
      invariant b.start <= pos <= b.end
      invariant forall x :: x in off' <==> x in off || b.start <= x < pos
      invariant forall x :: x in off' ==> off'[x] == if b.start <= x < pos then base + x - b.start else off[x]
    {
      off' := off'[pos := base + pos - b.start];
      pos := pos + 1;
    }
  }

  lemma RangeAdded(ranges: seq<Block>, size: nat, before: map<nat, nat>, off: map<nat, nat>, k: nat)
    requires OffsetsTo(ranges, size, before, k) && k < |ranges|
    requires forall x :: x in off <==> x in before || InBlock(ranges[k], x)
    requires forall x :: x in off ==>
      off[x] == if InBlock(ranges[k], x) then Cum(ranges, k) + x - ranges[k].start else before[x]
    ensures OffsetsTo(ranges, size, off, k + 1)
  {
    forall x | x in off ensures InSome(ranges, k + 1, x) {
      if x in before { assert InSome(ranges, k, x); }
    }
    forall j, x | 0 <= j < k + 1 && InBlock(ranges[j], x)
      ensures x in off && off[x] == Cum(ranges, j) + x - ranges[j].start
    {
      if j < k { assert !InBlock(ranges[k], x); }
    }
  }

  // ---- text ----

  /** Each kept byte stands at its new offset. */
  ghost predicate TextMoved(text: seq<u8>, off: map<nat, nat>, text': seq<u8>) {
    forall x :: x in off ==> x < |text| && off[x] < |text'| && text'[off[x]] == text[x]
  }

  method MoveText(text: seq<u8>, ranges: seq<Block>, off: map<nat, nat>, textSize: nat) returns (buf: array<u8>)
    requires OffsetsTo(ranges, |text|, off, |ranges|) && textSize == Cum(ranges, |ranges|)
    ensures fresh(buf) && buf.Length == textSize && TextMoved(text, off, buf[..])
  {
    buf := new u8[textSize](_ => 0);
    var cursor, k := 0, 0;
    while k < |ranges|
      invariant 0 <= k <= |ranges| && cursor == Cum(ranges, k)
      invariant forall j, x {:trigger InBlock(ranges[j], x)} :: 0 <= j < k && InBlock(ranges[j], x) ==>
        Standing(text, ranges, buf[..], j, x)
    {
      ghost var before := buf[..];
      CumGrows(ranges, |text|, k, |ranges|);
      SetBytes(buf, cursor, text[ranges[k].start..ranges[k].end]);
      RangeMoved(text, ranges, before, buf[..], k);
      cursor := cursor + ranges[k].end - ranges[k].start;
      k := k + 1;
    }
    forall x | x in off ensures x < |text| && off[x] < |buf[..]| && buf[..][off[x]] == text[x] {
      var j := OffsetAt(ranges, |text|, off, x);
      assert Standing(text, ranges, buf[..], j, x);
    }
  }

  /** Byte x of range j is in its place in the buffer. */
  ghost predicate Standing(text: seq<u8>, ranges: seq<Block>, buf: seq<u8>, j: nat, x: int)
    requires RangesOk(ranges, |text|) && j < |ranges| && InBlock(ranges[j], x)
  {
    Cum(ranges, j) + x - ranges[j].start < |buf| && buf[Cum(ranges, j) + x - ranges[j].start] == text[x]
  }

  lemma RangeMoved(text: seq<u8>, ranges: seq<Block>, before: seq<u8>, buf: seq<u8>, k: nat)
    requires RangesOk(ranges, |text|) && k < |ranges| && |buf| == |before|
      && Cum(ranges, k) + (ranges[k].end - ranges[k].start) <= |buf|
    requires forall j, x {:trigger InBlock(ranges[j], x)} :: 0 <= j < k && InBlock(ranges[j], x) ==>
      Standing(text, ranges, before, j, x)
    requires var bytes := text[ranges[k].start..ranges[k].end];
      && (forall x :: 0 <= x < |bytes| ==> buf[Cum(ranges, k) + x] == bytes[x])
      && (forall y :: 0 <= y < |buf| && !(Cum(ranges, k) <= y < Cum(ranges, k) + |bytes|) ==> buf[y] == before[y])
    ensures forall j, x {:trigger InBlock(ranges[j], x)} :: 0 <= j < k + 1 && InBlock(ranges[j], x) ==>
      Standing(text, ranges, buf, j, x)
  {
    forall j, x | 0 <= j < k + 1 && InBlock(ranges[j], x) ensures Standing(text, ranges, buf, j, x) {
      if j < k {
        CumGrows(ranges, |text|, j, k);
        assert Standing(text, ranges, before, j, x);
      } else {
        var d := x - ranges[k].start;
        assert buf[Cum(ranges, k) + d] == text[ranges[k].start..ranges[k].end][d];
      }
    }
  }

  // ---- symbols and relocations ----

  predicate KeepsSym(s: Symbol, off: map<nat, nat>) { s.section == Text ==> s.value in off }

  function MoveSym(s: Symbol, off: map<nat, nat>): Symbol
    requires KeepsSym(s, off) && forall x :: x in off ==> off[x] <= x
  {
    if s.section == Text then s.(value := off[s.value]) else s
  }

  /** The first n symbols, those kept, moved in order to the new table; sym tells where each went. */
  ghost predicate SymsMoved(symbols: seq<Symbol>, off: map<nat, nat>, symbols': seq<Symbol>, sym: map<nat, nat>, n: nat)
    requires forall x :: x in off ==> off[x] <= x
  {
    && n <= |symbols|
    && (forall s: nat :: s in sym <==> s < n && KeepsSym(symbols[s], off))
    && (forall s :: s in sym ==> sym[s] < |symbols'| && symbols'[sym[s]] == MoveSym(symbols[s], off))
    && (forall s, t :: s in sym && t in sym && s < t ==> sym[s] < sym[t])
    && (forall z :: 0 <= z < |symbols'| ==> Hit(sym, z))
  }

  lemma SymAdded(symbols: seq<Symbol>, off: map<nat, nat>, symbols': seq<Symbol>, sym: map<nat, nat>, n: nat)
    requires forall x :: x in off ==> off[x] <= x
    requires SymsMoved(symbols, off, symbols', sym, n) && n < |symbols| && KeepsSym(symbols[n], off)
    ensures SymsMoved(symbols, off, symbols' + [MoveSym(symbols[n], off)], sym[n := |symbols'|], n + 1)
  {
    var after, sym' := symbols' + [MoveSym(symbols[n], off)], sym[n := |symbols'|];
    forall z | 0 <= z < |after| ensures Hit(sym', z) { HitMore(sym, n, |symbols'|, z); }
  }

  lemma HitMore(m: map<nat, nat>, k: nat, v: nat, z: nat)
    requires k !in m && (z == v || Hit(m, z))
    ensures Hit(m[k := v], z)
  {
    var m' := m[k := v];
    if z == v {
      assert k in m' && m'[k] == z;
    } else {
      var x :| x in m && m[x] == z;
      assert x in m' && m'[x] == z;
    }
  }

  method MoveSymbols(symbols: seq<Symbol>, off: map<nat, nat>) returns (symbols': seq<Symbol>, sym: map<nat, nat>)
    requires forall x :: x in off ==> off[x] <= x
    ensures SymsMoved(symbols, off, symbols', sym, |symbols|)
  {
    symbols', sym := [], map[];
    var i := 0;
    while i < |symbols|
      invariant 0 <= i <= |symbols| && SymsMoved(symbols, off, symbols', sym, i)
    {
      if KeepsSym(symbols[i], off) {
        SymAdded(symbols, off, symbols', sym, i);
        sym := sym[i := |symbols'|];
        symbols' := symbols' + [MoveSym(symbols[i], off)];
      }
      i := i + 1;
    }
  }

  predicate KeepsReloc(r: Reloc, off: map<nat, nat>, sym: map<nat, nat>) {
    r.symbol in sym && (r.inText ==> r.offset in off)
  }

  function MoveReloc(r: Reloc, off: map<nat, nat>, sym: map<nat, nat>): Reloc
    requires KeepsReloc(r, off, sym) && (forall x :: x in off ==> off[x] <= x) && forall s :: s in sym ==> sym[s] <= s
  {
    if r.inText then r.(offset := off[r.offset], symbol := sym[r.symbol]) else r.(symbol := sym[r.symbol])
  }

  /** The first n relocations, those kept, moved in order. */
  ghost predicate RelocsMoved(relocs: seq<Reloc>, off: map<nat, nat>, sym: map<nat, nat>, relocs': seq<Reloc>,
                              rel: map<nat, nat>, n: nat)
    requires (forall x :: x in off ==> off[x] <= x) && forall s :: s in sym ==> sym[s] <= s
  {
    && n <= |relocs|
    && (forall q: nat :: q in rel <==> q < n && KeepsReloc(relocs[q], off, sym))
    && (forall q :: q in rel ==> rel[q] < |relocs'| && relocs'[rel[q]] == MoveReloc(relocs[q], off, sym))
    && (forall p, q :: p in rel && q in rel && p < q ==> rel[p] < rel[q])
    && (forall z :: 0 <= z < |relocs'| ==> Hit(rel, z))
  }

  method MoveRelocs(relocs: seq<Reloc>, off: map<nat, nat>,
                    sym: map<nat, nat>) returns (relocs': seq<Reloc>, ghost rel: map<nat, nat>)
    requires (forall x :: x in off ==> off[x] <= x) && forall s :: s in sym ==> sym[s] <= s
    ensures RelocsMoved(relocs, off, sym, relocs', rel, |relocs|)
  {
    relocs', rel := [], map[];
    var i := 0;
    while i < |relocs|
      invariant 0 <= i <= |relocs| && RelocsMoved(relocs, off, sym, relocs', rel, i)
    {
      if KeepsReloc(relocs[i], off, sym) {
        RelocAdded(relocs, off, sym, relocs', rel, i);
        rel := rel[i := |relocs'|];
        relocs' := relocs' + [MoveReloc(relocs[i], off, sym)];
      }
      i := i + 1;
    }
  }

  lemma RelocAdded(relocs: seq<Reloc>, off: map<nat, nat>, sym: map<nat, nat>, relocs': seq<Reloc>, rel: map<nat, nat>,
                   n: nat)
    requires (forall x :: x in off ==> off[x] <= x) && forall s :: s in sym ==> sym[s] <= s
    requires RelocsMoved(relocs, off, sym, relocs', rel, n) && n < |relocs| && KeepsReloc(relocs[n], off, sym)
    ensures RelocsMoved(relocs, off, sym, relocs' + [MoveReloc(relocs[n], off, sym)], rel[n := |relocs'|], n + 1)
  {
    var after, rel' := relocs' + [MoveReloc(relocs[n], off, sym)], rel[n := |relocs'|];
    forall z | 0 <= z < |after| ensures Hit(rel', z) { HitMore(rel, n, |relocs'|, z); }
  }

  // ---- objects ----

  /** Where text offsets, symbols and relocations of an object went. */
  datatype Renaming = Renaming(off: map<nat, nat>, sym: map<nat, nat>, rel: map<nat, nat>)

  /** An object is another with part of its text gone, and nothing else but what referred to that part. */
  ghost predicate Pruned(o: Object, o': Object, ren: Renaming) {
    && o'.name == o.name && o'.data == o.data && o'.bssSize == o.bssSize
    && Compacts(ren.off, |o'.text|) && TextMoved(o.text, ren.off, o'.text)
    && SymsMoved(o.symbols, ren.off, o'.symbols, ren.sym, |o.symbols|)
    && (forall s :: s in ren.sym ==> ren.sym[s] <= s)
    && RelocsMoved(o.relocs, ren.off, ren.sym, o'.relocs, ren.rel, |o.relocs|)
  }

  /** Positions kept in order from zero on lie no later than they were. */
  lemma {:induction false} NoLater(m: map<nat, nat>, n: nat, s: nat)
    requires (forall s, t :: s in m && t in m && s < t ==> m[s] < m[t]) && (forall z :: 0 <= z < n ==> Hit(m, z))
    requires s in m && m[s] < n
    ensures m[s] <= s
    decreases m[s]
  {
    if m[s] > 0 {
      assert Hit(m, m[s] - 1);
      var t :| t in m && m[t] == m[s] - 1;
      assert t < s;
      NoLater(m, n, t);
    }
  }

  method PruneObject(o: Object, keep: seq<Block>) returns (o': Object, ghost ren: Renaming)
    requires RangesOk(keep, |o.text|)
    ensures Pruned(o, o', ren) && OffsetsTo(keep, |o.text|, ren.off, |keep|)
  {
    var off, textSize := MapOffsets(keep, |o.text|);
    OffsetsCompact(keep, |o.text|, off);
    var buf := MoveText(o.text, keep, off, textSize);
    var symbols, sym := MoveSymbols(o.symbols, off);
    forall s | s in sym ensures sym[s] <= s { NoLater(sym, |symbols|, s); }
    ghost var rel;
    var relocs;
    relocs, rel := MoveRelocs(o.relocs, off, sym);
    o' := Object(o.name, buf[..], o.data, o.bssSize, symbols, relocs);
    ren := Renaming(off, sym, rel);
  }
}
