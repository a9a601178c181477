/** The program that text collection leaves is the same program at other addresses. */
module GcProof {
  import opened Bytes
  import opened Words
  import opened ObjectFormat
  import opened Resolver
  import opened Placement
  import opened TextBlocks
  import opened TextMark
  import opened TextPrune
  import opened TextGc

  /** Relocation q of object i is in its data or in a part of its text that is kept. */
  ghost predicate Live(objs: seq<Object>, rens: seq<Renaming>, i: int, q: int) {
    && 0 <= i < |objs| && i < |rens| && 0 <= q < |objs[i].relocs|
    && (objs[i].relocs[q].inText ==> objs[i].relocs[q].offset in rens[i].off)
  }

  /** What a live relocation leads to is reachable. */
  lemma LeadReached(objs: seq<Object>, blocks: seq<seq<Block>>, entry: Name, objs': seq<Object>, rens: seq<Renaming>,
                    i: nat, q: nat, k: BlockKey)
    requires Collected(objs, blocks, entry, objs', rens) && Live(objs, rens, i, q) && RelocLeads(objs, blocks, i, q, k)
    ensures Reached(objs, blocks, entry, k)
  {
    assert CollectedAt(objs, blocks, entry, i, objs'[i], rens[i]);
    var r := objs[i].relocs[q];
    if r.inText {
      assert InReached(objs, blocks, entry, i, r.offset);
      var b: nat :| Inside(blocks, (i, b), r.offset) && Reached(objs, blocks, entry, (i, b));
      assert EdgeBy(objs, blocks, (i, b), q, k);
      ReachEdge(objs, blocks, entry, (i, b), k);
    } else {
      ReachRoot(objs, blocks, entry, k);
    }
  }

  /** A text symbol in a reachable block is kept. */
  lemma SymbolKept(objs: seq<Object>, blocks: seq<seq<Block>>, entry: Name, objs': seq<Object>, rens: seq<Renaming>,
                   j: nat, l: nat, k: nat)
    requires Collected(objs, blocks, entry, objs', rens) && j < |objs| && l < |objs[j].symbols|
    requires objs[j].symbols[l].section == Text ==>
      Inside(blocks, (j, k), objs[j].symbols[l].value) && Reached(objs, blocks, entry, (j, k))
    ensures l in rens[j].sym
  {
    assert CollectedAt(objs, blocks, entry, j, objs'[j], rens[j]);
    if objs[j].symbols[l].section == Text {
      assert InReached(objs, blocks, entry, j, objs[j].symbols[l].value);
      assert objs[j].symbols[l].value in rens[j].off;
    }
  }

  /** The definition a live relocation means is kept, whether in its own object or in another. */
  lemma DefinitionKept(objs: seq<Object>, blocks: seq<seq<Block>>, entry: Name, objs': seq<Object>, rens: seq<Renaming>,
                       i: nat, q: nat, j: int, l: int)
    requires Collected(objs, blocks, entry, objs', rens) && AllReady(objs) && Live(objs, rens, i, q)
    requires Resolves(objs, i, objs[i].relocs[q].symbol, j, l)
    ensures l in rens[j].sym
  {
    var k: nat := 0;
    if objs[j].symbols[l].section == Text {
      k := TextLead(objs, blocks, i, q, j, l);
      LeadReached(objs, blocks, entry, objs', rens, i, q, (j, k));
    }
    SymbolKept(objs, blocks, entry, objs', rens, j, l, k);
  }

  lemma TextLead(objs: seq<Object>, blocks: seq<seq<Block>>, i: nat, q: nat, j: nat, l: nat) returns (k: nat)
    requires BlocksCover(objs, blocks) && AllReady(objs) && i < |objs| && q < |objs[i].relocs|
    requires Resolves(objs, i, objs[i].relocs[q].symbol, j, l) && objs[j].symbols[l].section == Text
    ensures Inside(blocks, (j, k), objs[j].symbols[l].value) && RelocLeads(objs, blocks, i, q, (j, k))
  {
    var s := objs[i].relocs[q].symbol;
    assert Ready(objs[j]) && Tiled(objs[j], blocks[j]);
    k := TileAt(blocks[j], |objs[j].text|, objs[j].symbols[l].value);
    if objs[i].symbols[s].section == Undef { Bearing(objs[j], blocks[j], l, k); }
  }

  /** The block a global text symbol lies in starts there and bears its name. */
  lemma Bearing(o: Object, bs: seq<Block>, l: nat, k: nat)
    requires Headed(o, bs) && Tiles(bs, |o.text|) && HeadAt(o, l) && k < |bs| && InBlock(bs[k], o.symbols[l].value)
    ensures o.symbols[l].name in bs[k].names
  {
    var x := o.symbols[l].value;
    assert StartsAt(bs, x);
    var h :| 0 <= h < |bs| && bs[h].start == x;
    assert InBlock(bs[h], x);
    SameBlock(o, bs, h, k, x);
    assert NamedAt(o, x, o.symbols[l].name);
  }

  /** No live relocation is dropped. */
  lemma NoneDropped(objs: seq<Object>, blocks: seq<seq<Block>>, entry: Name, objs': seq<Object>, rens: seq<Renaming>,
                    i: nat, q: nat)
    requires Collected(objs, blocks, entry, objs', rens) && AllReady(objs) && Live(objs, rens, i, q)
    ensures q in rens[i].rel
  {
    assert Ready(objs[i]) && CollectedAt(objs, blocks, entry, i, objs'[i], rens[i]);
    var s := objs[i].relocs[q].symbol;
    if objs[i].symbols[s].section == Undef {
      SymbolKept(objs, blocks, entry, objs', rens, i, s, 0);
    } else {
      DefinitionKept(objs, blocks, entry, objs', rens, i, q, i, s);
    }
  }

  /** The moved symbol means the moved definition. */
  lemma SameMeaning(objs: seq<Object>, objs': seq<Object>, rens: seq<Renaming>, i: int, s: int, j: int, l: int)
    requires |objs'| == |objs| == |rens| && forall k :: 0 <= k < |objs| ==> Pruned(objs[k], objs'[k], rens[k])
    requires Resolves(objs, i, s, j, l) && s in rens[i].sym && l in rens[j].sym
    ensures Resolves(objs', i, rens[i].sym[s], j, rens[j].sym[l])
  {
    assert Pruned(objs[i], objs'[i], rens[i]) && Pruned(objs[j], objs'[j], rens[j]);
  }

  lemma DefinerBack(objs: seq<Object>, objs': seq<Object>, rens: seq<Renaming>, j: int, z: int,
                    n: Name) returns (l: nat)
    requires |objs'| == |objs| == |rens| && (forall k :: 0 <= k < |objs| ==> Pruned(objs[k], objs'[k], rens[k]))
      && Definer(objs', j, z, n)
    ensures l in rens[j].sym && rens[j].sym[l] == z && Definer(objs, j, l, n)
  {
    assert Pruned(objs[j], objs'[j], rens[j]);
    assert Hit(rens[j].sym, z);
    l :| l in rens[j].sym && rens[j].sym[l] == z;
  }

  lemma UniqueKept(objs: seq<Object>, objs': seq<Object>, rens: seq<Renaming>)
    requires |objs'| == |objs| == |rens| && (forall k :: 0 <= k < |objs| ==> Pruned(objs[k], objs'[k], rens[k]))
      && Unique(objs)
    ensures Unique(objs')
  {
    forall i, k, j, l, n | Definer(objs', i, k, n) && Definer(objs', j, l, n) ensures i == j && k == l {
      var a := DefinerBack(objs, objs', rens, i, k, n);
      var b := DefinerBack(objs, objs', rens, j, l, n);
    }
  }

  // ---- fields ----

  /** The four bytes of a kept field stay together. */
  lemma FieldKept(objs: seq<Object>, blocks: seq<seq<Block>>, entry: Name, objs': seq<Object>, rens: seq<Renaming>,
                  i: nat, q: nat, d: nat)
    requires Collected(objs, blocks, entry, objs', rens) && AllReady(objs) && Live(objs, rens, i, q)
      && objs[i].relocs[q].inText && d < 4
    ensures var x := objs[i].relocs[q].offset; x + d in rens[i].off && rens[i].off[x + d] == rens[i].off[x] + d
  {
    var o, bs, x := objs[i], blocks[i], objs[i].relocs[q].offset;
    assert Ready(o) && Tiled(o, bs) && CollectedAt(objs, blocks, entry, i, objs'[i], rens[i]);
    assert InReached(objs, blocks, entry, i, x);
    var k: nat :| Inside(blocks, (i, k), x) && Reached(objs, blocks, entry, (i, k));
    FieldInside(o, bs, q, k);
    assert Inside(blocks, (i, k), x + d);
    assert InReached(objs, blocks, entry, i, x + d);
    assert Rigid(blocks, i, rens[i].off);
  }

  lemma FieldInside(o: Object, bs: seq<Block>, q: nat, k: nat)
    requires Ready(o) && Headed(o, bs) && Tiles(bs, |o.text|) && q < |o.relocs| && o.relocs[q].inText && k < |bs|
      && InBlock(bs[k], o.relocs[q].offset)
    ensures o.relocs[q].offset + 4 <= bs[k].end
  {
    if k == |bs| - 1 {
      assert o.relocs[q].offset + 4 <= |Sec(o, true)|;
    } else {
      assert bs[k].end == bs[k + 1].start && HeadStands(o, bs[k + 1].start);
    }
  }

  lemma FieldsApart(objs: seq<Object>, blocks: seq<seq<Block>>, entry: Name, objs': seq<Object>, rens: seq<Renaming>,
                    i: nat, p: nat, q: nat)
    requires Collected(objs, blocks, entry, objs', rens) && AllReady(objs) && Live(objs, rens, i, p)
      && Live(objs, rens, i, q) && p != q
    requires objs[i].relocs[p].inText && objs[i].relocs[q].inText
    ensures Apart(rens[i].off[objs[i].relocs[p].offset], rens[i].off[objs[i].relocs[q].offset])
  {
    var x, y, off := objs[i].relocs[p].offset, objs[i].relocs[q].offset, rens[i].off;
    FieldKept(objs, blocks, entry, objs', rens, i, p, 3);
    FieldKept(objs, blocks, entry, objs', rens, i, q, 3);
    WereApart(objs[i], p, q);
    OffsetsGrow(objs, blocks, entry, objs', rens, i);
    MovedApart(off, x, y);
  }

  lemma WereApart(o: Object, p: nat, q: nat)
    requires Ready(o) && p < |o.relocs| && q < |o.relocs| && p != q && o.relocs[p].inText == o.relocs[q].inText
    ensures Apart(o.relocs[p].offset, o.relocs[q].offset)
  {
    if p < q { assert Apart(o.relocs[p].offset, o.relocs[q].offset); } else {
      assert Apart(o.relocs[q].offset, o.relocs[p].offset);
    }
  }

  ghost predicate Grows(off: map<nat, nat>) { forall x, y :: x in off && y in off && x < y ==> off[x] < off[y] }

  lemma OffsetsGrow(objs: seq<Object>, blocks: seq<seq<Block>>, entry: Name, objs': seq<Object>, rens: seq<Renaming>,
                    i: nat)
    requires Collected(objs, blocks, entry, objs', rens) && i < |objs|
    ensures Grows(rens[i].off)
  {
    assert CollectedAt(objs, blocks, entry, i, objs'[i], rens[i]);
  }

  lemma MovedApart(off: map<nat, nat>, x: nat, y: nat)
    requires Grows(off) && Apart(x, y) && x in off && y in off && x + 3 in off && y + 3 in off
      && off[x + 3] == off[x] + 3 && off[y + 3] == off[y] + 3
    ensures Apart(off[x], off[y])
  {
    if x + 4 <= y { assert off[x + 3] < off[y]; } else { assert off[y + 3] < off[x]; }
  }

  lemma SamePlace(off: map<nat, nat>, x: nat, y: nat)
    requires Grows(off) && x in off && y in off && off[x] == off[y]
    ensures x == y
  {
  }

  /** A relocation of the new object is a live one of the old. */
  lemma RelocBack(objs: seq<Object>, blocks: seq<seq<Block>>, entry: Name, objs': seq<Object>, rens: seq<Renaming>,
                  i: nat, z: int) returns (q: nat)
    requires Collected(objs, blocks, entry, objs', rens) && i < |objs| && 0 <= z < |objs'[i].relocs|
    ensures q in rens[i].rel && rens[i].rel[q] == z && Live(objs, rens, i, q)
    ensures var r, r' := objs[i].relocs[q], objs'[i].relocs[z];
      r'.inText == r.inText && r.symbol in rens[i].sym && r'.symbol == rens[i].sym[r.symbol]
      && r'.offset == (if r.inText then rens[i].off[r.offset] else r.offset) && r'.addend == r.addend
  {
    assert CollectedAt(objs, blocks, entry, i, objs'[i], rens[i]);
    assert Hit(rens[i].rel, z);
    q :| q in rens[i].rel && rens[i].rel[q] == z;
  }

  lemma SoundKept(objs: seq<Object>, blocks: seq<seq<Block>>, entry: Name, objs': seq<Object>, rens: seq<Renaming>,
                  i: nat)
    requires Collected(objs, blocks, entry, objs', rens) && AllReady(objs) && i < |objs|
    ensures Sound(objs'[i])
  {
    var o, o' := objs[i], objs'[i];
    assert Ready(o) && CollectedAt(objs, blocks, entry, i, objs'[i], rens[i]);
    forall z | 0 <= z < |o'.relocs|
      ensures o'.relocs[z].symbol < |o'.symbols| && o'.relocs[z].offset + 4 <= |Sec(o', o'.relocs[z].inText)|
    {
      var q := RelocBack(objs, blocks, entry, objs', rens, i, z);
      if o.relocs[q].inText { FieldKept(objs, blocks, entry, objs', rens, i, q, 3); }
    }
    forall y, z | 0 <= y < z < |o'.relocs| && o'.relocs[y].inText == o'.relocs[z].inText
      ensures Apart(o'.relocs[y].offset, o'.relocs[z].offset)
    {
      var p := RelocBack(objs, blocks, entry, objs', rens, i, y);
      var q := RelocBack(objs, blocks, entry, objs', rens, i, z);
      if o.relocs[p].inText { FieldsApart(objs, blocks, entry, objs', rens, i, p, q); }
    }
  }

  /** A kept text byte outside the fields is outside the new fields. */
  lemma ClearKept(objs: seq<Object>, blocks: seq<seq<Block>>, entry: Name, objs': seq<Object>, rens: seq<Renaming>,
                  i: nat, x: nat)
    requires Collected(objs, blocks, entry, objs', rens) && AllReady(objs) && i < |objs| && x in rens[i].off
      && Covered(objs'[i], true, rens[i].off[x])
    ensures Covered(objs[i], true, x)
  {
    var o, o', off := objs[i], objs'[i], rens[i].off;
    var z :| 0 <= z < |o'.relocs| && o'.relocs[z].inText && o'.relocs[z].offset <= off[x] < o'.relocs[z].offset + 4;
    var q := RelocBack(objs, blocks, entry, objs', rens, i, z);
    var a := o.relocs[q].offset;
    var d := off[x] - off[a];
    FieldKept(objs, blocks, entry, objs', rens, i, q, d);
    OffsetsGrow(objs, blocks, entry, objs', rens, i);
    SamePlace(off, x, a + d);
  }

  lemma ClearData(objs: seq<Object>, blocks: seq<seq<Block>>, entry: Name, objs': seq<Object>, rens: seq<Renaming>,
                  i: nat, x: nat)
    requires Collected(objs, blocks, entry, objs', rens) && i < |objs| && Covered(objs'[i], false, x)
    ensures Covered(objs[i], false, x)
  {
    var o' := objs'[i];
    var z :| 0 <= z < |o'.relocs| && !o'.relocs[z].inText && o'.relocs[z].offset <= x < o'.relocs[z].offset + 4;
    var q := RelocBack(objs, blocks, entry, objs', rens, i, z);
  }

  // ---- the image ----

  /** A symbol stands for one definition. */
  lemma OneTarget(objs: seq<Object>, i: int, s: int, j: int, l: int, k: int, m: int)
    requires Unique(objs) && Resolves(objs, i, s, j, l) && Resolves(objs, i, s, k, m)
    ensures j == k && l == m
  {
  }

  /** The address a definition has after collection: its section's new place, and its own new offset in it. */
  ghost function NewAddress(objs: seq<Object>, lay': Layout, rens: seq<Renaming>, j: int, l: int): nat
    requires 0 <= j < |objs| == |rens| && |lay'.text| == |lay'.data| == |lay'.bss| == |objs|
      && 0 <= l < |objs[j].symbols|
  {
    var def := objs[j].symbols[l];
    Base(lay', j, def.section) + if def.section == Text
      && def.value in rens[j].off then rens[j].off[def.value] else def.value
  }

  lemma MovedAddress(objs: seq<Object>, lay': Layout, objs': seq<Object>, rens: seq<Renaming>, j: int, l: int)
    requires |objs'| == |objs| == |rens| && |lay'.text| == |lay'.data| == |lay'.bss| == |objs| && 0 <= j < |objs|
    requires Pruned(objs[j], objs'[j], rens[j]) && l in rens[j].sym
    ensures AddressOf(objs', lay', j, rens[j].sym[l]) == NewAddress(objs, lay', rens, j, l)
  {
  }

  /** A relocation field in a section's image. */
  ghost predicate WordAt(bases: seq<nat>, start: nat, buf: seq<u8>, i: int, offset: int, v: u32) {
    0 <= i < |bases| && InRange(buf, bases[i] - start + offset) && Read32(buf, bases[i] - start + offset) == v
  }

  ghost predicate FieldHolds(lay: Layout, text: seq<u8>, data: seq<u8>, inText: bool, i: int, offset: int, v: u32) {
    if inText then WordAt(lay.text, lay.origin, text, i, offset, v)
      else WordAt(lay.data, lay.dataStart, data, i, offset, v)
  }

  lemma FieldOf(objs: seq<Object>, lay: Layout, text: seq<u8>, data: seq<u8>, i: int, q: int, j: int, l: int)
    requires Linked(objs, lay, text, data) && Unique(objs) && 0 <= i < |objs| && 0 <= q < |objs[i].relocs|
      && Resolves(objs, i, objs[i].relocs[q].symbol, j, l)
    ensures FieldHolds(lay, text, data, objs[i].relocs[q].inText, i, objs[i].relocs[q].offset,
        Value(AddressOf(objs, lay, j, l), objs[i].relocs[q].addend))
  {
    var r := objs[i].relocs[q];
    if r.inText {
      assert Applied(objs, lay, true, lay.text, lay.origin, text, i, q);
      var k, m :| Resolves(objs, i, r.symbol, k, m)
        && Read32(text, lay.text[i] - lay.origin + r.offset) == Value(AddressOf(objs, lay, k, m), r.addend);
      OneTarget(objs, i, r.symbol, j, l, k, m);
    } else {
      assert Applied(objs, lay, false, lay.data, lay.dataStart, data, i, q);
      var k, m :| Resolves(objs, i, r.symbol, k, m)
        && Read32(data, lay.data[i] - lay.dataStart + r.offset) == Value(AddressOf(objs, lay, k, m), r.addend);
      OneTarget(objs, i, r.symbol, j, l, k, m);
    }
  }

  ghost predicate Sized(objs: seq<Object>, lay: Layout) { |lay.text| == |lay.data| == |lay.bss| == |objs| }

  /** The new place of a relocation field. */
  ghost function NewOffset(objs: seq<Object>, rens: seq<Renaming>, i: int, q: int): nat
    requires Live(objs, rens, i, q)
  {
    if objs[i].relocs[q].inText then rens[i].off[objs[i].relocs[q].offset] else objs[i].relocs[q].offset
  }

  /** A live relocation's word is the old address of one definition plus the addend, and then the new address of
      the same one. */
  ghost predicate SameField(objs: seq<Object>, lay: Layout, text: seq<u8>, data: seq<u8>, rens: seq<Renaming>,
                            lay': Layout, text': seq<u8>, data': seq<u8>, i: int, q: int) {
    && |rens| == |objs| && Sized(objs, lay') && Live(objs, rens, i, q)
    && var r := objs[i].relocs[q];
      exists j, l :: Resolves(objs, i, r.symbol, j, l)
        && FieldHolds(lay, text, data, r.inText, i, r.offset, Value(AddressOf(objs, lay, j, l), r.addend))
        && FieldHolds(lay', text', data', r.inText, i, NewOffset(objs, rens, i, q),
            Value(NewAddress(objs, lay', rens, j, l), r.addend))
  }

  lemma FieldSame(objs: seq<Object>, lay: Layout, text: seq<u8>, data: seq<u8>, blocks: seq<seq<Block>>, entry: Name,
                  objs': seq<Object>, rens: seq<Renaming>, lay': Layout, text': seq<u8>, data': seq<u8>, i: nat, q: nat)
    requires Collected(objs, blocks, entry, objs', rens) && AllReady(objs) && Closed(objs) && Live(objs, rens, i, q)
      && Sized(objs, lay')
    requires Linked(objs, lay, text, data) && Linked(objs', lay', text', data')
    ensures SameField(objs, lay, text, data, rens, lay', text', data', i, q)
  {
    var r := objs[i].relocs[q];
    var j, l := TargetOf(objs, i, q);
    FieldOf(objs, lay, text, data, i, q, j, l);
    DefinitionKept(objs, blocks, entry, objs', rens, i, q, j, l);
    NoneDropped(objs, blocks, entry, objs', rens, i, q);
    AllPruned(objs, blocks, entry, objs', rens);
    assert Pruned(objs[i], objs'[i], rens[i]) && Pruned(objs[j], objs'[j], rens[j]);
    var z := rens[i].rel[q];
    assert objs'[i].relocs[z] == MoveReloc(r, rens[i].off, rens[i].sym);
    SameMeaning(objs, objs', rens, i, r.symbol, j, l);
    UniqueKept(objs, objs', rens);
    FieldOf(objs', lay', text', data', i, z, j, rens[j].sym[l]);
    MovedAddress(objs, lay', objs', rens, j, l);
  }

  lemma AllPruned(objs: seq<Object>, blocks: seq<seq<Block>>, entry: Name, objs': seq<Object>, rens: seq<Renaming>)
    requires Collected(objs, blocks, entry, objs', rens)
    ensures forall k :: 0 <= k < |objs| ==> Pruned(objs[k], objs'[k], rens[k])
  {
    forall k | 0 <= k < |objs| ensures Pruned(objs[k], objs'[k], rens[k]) {
      assert CollectedAt(objs, blocks, entry, k, objs'[k], rens[k]);
    }
  }

  lemma TargetOf(objs: seq<Object>, i: nat, q: nat) returns (j: int, l: int)
    requires AllReady(objs) && Closed(objs) && i < |objs| && q < |objs[i].relocs|
    ensures Resolves(objs, i, objs[i].relocs[q].symbol, j, l)
  {
    forall k | 0 <= k < |objs| ensures Sound(objs[k]) { assert Ready(objs[k]); }
    ClosedResolves(objs);
    var s := objs[i].relocs[q].symbol;
    assert CanResolve(objs, i, s);
    j, l :| Resolves(objs, i, s, j, l);
  }

  /** After collection, too, no relocation meets an undefined symbol. */
  lemma ResolvesKept(objs: seq<Object>, blocks: seq<seq<Block>>, entry: Name, objs': seq<Object>, rens: seq<Renaming>)
    requires Collected(objs, blocks, entry, objs', rens) && AllReady(objs) && Closed(objs)
    ensures AllResolve(objs') && AllSound(objs') && Unique(objs')
  {
    AllPruned(objs, blocks, entry, objs', rens);
    UniqueKept(objs, objs', rens);
    forall i | 0 <= i < |objs'| ensures Sound(objs'[i]) { SoundKept(objs, blocks, entry, objs', rens, i); }
    forall i, z | 0 <= i < |objs'| && 0 <= z < |objs'[i].relocs|
      ensures CanResolve(objs', i, objs'[i].relocs[z].symbol)
    {
      var q := RelocBack(objs, blocks, entry, objs', rens, i, z);
      var j, l := TargetOf(objs, i, q);
      DefinitionKept(objs, blocks, entry, objs', rens, i, q, j, l);
      SameMeaning(objs, objs', rens, i, objs[i].relocs[q].symbol, j, l);
    }
  }

  /** A byte that is kept and not part of a field. */
  ghost predicate SameByte(objs: seq<Object>, lay: Layout, text: seq<u8>, rens: seq<Renaming>, lay': Layout,
                           text': seq<u8>, i: int, x: nat) {
    && 0 <= i < |objs| && i < |rens| && i < |lay.text| && i < |lay'.text| && x in rens[i].off
    && 0 <= lay.text[i] - lay.origin + x < |text| && 0 <= lay'.text[i] - lay'.origin + rens[i].off[x] < |text'|
    && text'[lay'.text[i] - lay'.origin + rens[i].off[x]] == text[lay.text[i] - lay.origin + x]
  }

  ghost predicate SameDatum(objs: seq<Object>, lay: Layout, data: seq<u8>, lay': Layout, data': seq<u8>, i: int,
                            x: nat) {
    && 0 <= i < |objs| && i < |lay.data| && i < |lay'.data|
    && 0 <= lay.data[i] - lay.dataStart + x < |data| && 0 <= lay'.data[i] - lay'.dataStart + x < |data'|
    && data'[lay'.data[i] - lay'.dataStart + x] == data[lay.data[i] - lay.dataStart + x]
  }

  /** The two images are one program under an address renaming. */
  ghost predicate SameProgram(objs: seq<Object>, lay: Layout, text: seq<u8>, data: seq<u8>, rens: seq<Renaming>,
                              lay': Layout, text': seq<u8>, data': seq<u8>) {
    && |rens| == |objs|
    && (forall i, x: nat :: 0 <= i < |objs| && x in rens[i].off && !Covered(objs[i], true, x) ==>
        SameByte(objs, lay, text, rens, lay', text', i, x))
    && (forall i, x: nat :: 0 <= i < |objs| && x < |objs[i].data| && !Covered(objs[i], false, x) ==>
        SameDatum(objs, lay, data, lay', data', i, x))
    && (forall i, q :: Live(objs, rens, i, q) ==> SameField(objs, lay, text, data, rens, lay', text', data', i, q))
  }

  lemma ByteSame(objs: seq<Object>, lay: Layout, text: seq<u8>, data: seq<u8>, blocks: seq<seq<Block>>, entry: Name,
                 objs': seq<Object>, rens: seq<Renaming>, lay': Layout, text': seq<u8>, data': seq<u8>, i: nat, x: nat)
    requires Collected(objs, blocks, entry, objs', rens) && AllReady(objs) && i < |objs| && x in rens[i].off
      && !Covered(objs[i], true, x)
    requires Linked(objs, lay, text, data) && Linked(objs', lay', text', data') && Sized(objs, lay) && Sized(objs, lay')
    ensures SameByte(objs, lay, text, rens, lay', text', i, x)
  {
    assert CollectedAt(objs, blocks, entry, i, objs'[i], rens[i]);
    var y := rens[i].off[x];
    if Covered(objs'[i], true, y) { ClearKept(objs, blocks, entry, objs', rens, i, x); }
    assert Sec(objs[i], true)[x] == Sec(objs'[i], true)[y];
  }

  lemma DatumSame(objs: seq<Object>, lay: Layout, text: seq<u8>, data: seq<u8>, blocks: seq<seq<Block>>, entry: Name,
                  objs': seq<Object>, rens: seq<Renaming>, lay': Layout, text': seq<u8>, data': seq<u8>, i: nat, x: nat)
    requires Collected(objs, blocks, entry, objs', rens) && AllReady(objs) && i < |objs| && x < |objs[i].data|
      && !Covered(objs[i], false, x)
    requires Linked(objs, lay, text, data) && Linked(objs', lay', text', data') && Sized(objs, lay) && Sized(objs, lay')
    ensures SameDatum(objs, lay, data, lay', data', i, x)
  {
    assert CollectedAt(objs, blocks, entry, i, objs'[i], rens[i]);
    if Covered(objs'[i], false, x) { ClearData(objs, blocks, entry, objs', rens, i, x); }
    assert Sec(objs[i], false)[x] == Sec(objs'[i], false)[x];
  }

  /**
   * Collection keeps the program. Every kept byte outside the fields is the same; every relocation of the data
   * and of the kept text has a field in the new image, holding the new address of the same definition plus the
   * same addend.
   */
  lemma CollectionPreserves(objs: seq<Object>, lay: Layout, text: seq<u8>, data: seq<u8>, blocks: seq<seq<Block>>,
                            entry: Name, objs': seq<Object>, rens: seq<Renaming>, lay': Layout, text': seq<u8>,
                            data': seq<u8>)
    requires Collected(objs, blocks, entry, objs', rens) && AllReady(objs) && Closed(objs)
    requires LaidOut(objs, lay) && LaidOut(objs', lay') && Linked(objs, lay, text, data)
      && Linked(objs', lay', text', data')
    ensures SameProgram(objs, lay, text, data, rens, lay', text', data')
  {
    assert Sized(objs, lay) && Sized(objs, lay');
    forall i, x: nat | 0 <= i < |objs| && x in rens[i].off && !Covered(objs[i], true, x)
      ensures SameByte(objs, lay, text, rens, lay', text', i, x)
    {
      ByteSame(objs, lay, text, data, blocks, entry, objs', rens, lay', text', data', i, x);
    }
    forall i, x: nat | 0 <= i < |objs| && x < |objs[i].data| && !Covered(objs[i], false, x)
      ensures SameDatum(objs, lay, data, lay', data', i, x)
    {
      DatumSame(objs, lay, text, data, blocks, entry, objs', rens, lay', text', data', i, x);
    }
    forall i, q | Live(objs, rens, i, q) ensures SameField(objs, lay, text, data, rens, lay', text', data', i, q) {
      FieldSame(objs, lay, text, data, blocks, entry, objs', rens, lay', text', data', i, q);
    }
  }

  /** The definition of the entry is kept. */
  lemma EntryKept(objs: seq<Object>, blocks: seq<seq<Block>>, entry: Name, objs': seq<Object>, rens: seq<Renaming>,
                  j: int, l: int)
    requires Collected(objs, blocks, entry, objs', rens) && AllReady(objs) && Definer(objs, j, l, entry)
    ensures l in rens[j].sym && Definer(objs', j, rens[j].sym[l], entry)
  {
    var k: nat := 0;
    if objs[j].symbols[l].section == Text { k := EntryReached(objs, blocks, entry, j, l); }
    SymbolKept(objs, blocks, entry, objs', rens, j, l, k);
    assert CollectedAt(objs, blocks, entry, j, objs'[j], rens[j]);
  }

  lemma EntryReached(objs: seq<Object>, blocks: seq<seq<Block>>, entry: Name, j: nat, l: nat) returns (k: nat)
    requires BlocksCover(objs, blocks) && AllReady(objs) && Definer(objs, j, l, entry)
      && objs[j].symbols[l].section == Text
    ensures Inside(blocks, (j, k), objs[j].symbols[l].value) && Reached(objs, blocks, entry, (j, k))
  {
    var o, bs := objs[j], blocks[j];
    assert Ready(o) && Tiled(o, bs);
    k := TileAt(bs, |o.text|, o.symbols[l].value);
    Bearing(o, bs, l, k);
    ReachRoot(objs, blocks, entry, (j, k));
  }
}
