/** Dropping unreachable text from the objects of a link, and why the program stays the same. */
module TextGc {
  import opened Folding
  import opened ObjectFormat
  import opened Resolver
  import opened Placement
  import opened TextBlocks
  import opened TextMark
  import opened TextPrune

  /**
   * What collection asks of an object: relocation fields inside their sections and apart; text symbols inside
   * the text; global text symbols at distinct offsets, one of them 0; no field across the start of one.
   */
  ghost predicate Ready(o: Object) {
    && Sound(o) && TextInside(o) && NoAliases(o) && (o.text != [] ==> HeadAtZero(o)) && Contained(o)
  }

  ghost predicate TextInside(o: Object) {
    forall s :: 0 <= s < |o.symbols| && o.symbols[s].section == Text ==> o.symbols[s].value < |o.text|
  }

  ghost predicate Contained(o: Object) {
    forall q, s :: 0 <= q < |o.relocs| && o.relocs[q].inText && HeadAt(o, s) ==>
      !(o.relocs[q].offset < o.symbols[s].value < o.relocs[q].offset + 4)
  }

  ghost predicate AllReady(objs: seq<Object>) {
    forall i {:trigger Ready(objs[i])} :: 0 <= i < |objs| ==> Ready(objs[i])
  }

  /** The blocks of one object cover its text, and fields lie inside blocks. */
  ghost predicate Tiled(o: Object, bs: seq<Block>) {
    Headed(o, bs) && (bs == [] ==> o.text == []) && (bs != [] ==> Tiles(bs, |o.text|))
  }

  ghost predicate BlocksCover(objs: seq<Object>, blocks: seq<seq<Block>>) {
    |blocks| == |objs| && forall i {:trigger Tiled(objs[i], blocks[i])} :: 0 <= i < |objs| ==> Tiled(objs[i], blocks[i])
  }

  /** What the code itself takes for granted: sound relocations, and global text symbols inside the text. */
  ghost predicate Safe(o: Object) { Sound(o) && HeadsInside(o) }

  ghost predicate AllSafe(objs: seq<Object>) { forall i {:trigger Safe(objs[i])} :: 0 <= i < |objs| ==> Safe(objs[i]) }

  /** The blocks the objects are cut into. */
  ghost predicate CutInto(o: Object, bs: seq<Block>) { Headed(o, bs) && CoverIs(o, bs) }

  ghost predicate Cuts(objs: seq<Object>, blocks: seq<seq<Block>>) {
    |blocks| == |objs|
      && forall i {:trigger CutInto(objs[i], blocks[i])} :: 0 <= i < |objs| ==> CutInto(objs[i], blocks[i])
  }

  method AllBlocks(objs: seq<Object>) returns (blocks: seq<seq<Block>>)
    requires AllSafe(objs)
    ensures Cuts(objs, blocks) && (AllReady(objs) ==> BlocksCover(objs, blocks))
  {
    blocks := [];
    var i := 0;
    while i < |objs|
      invariant 0 <= i <= |objs| && |blocks| == i && forall j :: 0 <= j < i ==> CutInto(objs[j], blocks[j])
      invariant AllReady(objs) ==> forall j :: 0 <= j < i ==> Tiled(objs[j], blocks[j])
    {
      assert Safe(objs[i]);
      var bs := TextBlocks.TextBlocks(objs[i]);
      if AllReady(objs) {
        assert Ready(objs[i]);
        TiledNow(objs[i], bs);
      }
      blocks := blocks + [bs];
      i := i + 1;
    }
  }

  lemma TiledNow(o: Object, bs: seq<Block>)
    requires Ready(o) && Headed(o, bs) && (bs == [] <==> forall s :: !HeadAt(o, s))
      && (Tiles(bs, |o.text|) <==> HeadAtZero(o) && NoAliases(o))
    ensures Tiled(o, bs)
  {
    if bs != [] {
      var s :| HeadAt(o, s);
      assert o.symbols[s].value < |o.text|;
    }
  }

  // ---- one object ----

  /** The kept offsets of object i are those in marked blocks. */
  ghost predicate KeptOffsets(blocks: seq<seq<Block>>, marks: set<BlockKey>, i: nat, off: map<nat, nat>) {
    forall x: nat :: x in off <==> InMarked(blocks, marks, i, x)
  }

  ghost predicate InMarked(blocks: seq<seq<Block>>, marks: set<BlockKey>, i: nat, x: nat) {
    exists k: nat :: Inside(blocks, (i, k), x) && (i, k) in marks
  }

  /** Inside a block the bytes stay together. */
  ghost predicate Rigid(blocks: seq<seq<Block>>, i: nat, off: map<nat, nat>) {
    forall k: nat, x: nat, y: nat :: Inside(blocks, (i, k), x) && Inside(blocks, (i, k), y) && x in off && y in off ==>
      off[y] + x == off[x] + y
  }

  ghost predicate Kept(objs: seq<Object>, blocks: seq<seq<Block>>, marks: set<BlockKey>, i: nat, o': Object,
                       ren: Renaming) {
    i < |objs| && i < |blocks| && Pruned(objs[i], o', ren) && KeptOffsets(blocks, marks, i, ren.off)
      && Rigid(blocks, i, ren.off)
  }

  function Self(n: nat): (m: map<nat, nat>)
    ensures forall x: nat :: x in m <==> x < n
    ensures forall x :: x in m ==> m[x] == x
  {
    if n == 0 then map[] else Self(n - 1)[n - 1 := n - 1]
  }

  ghost function Identity(o: Object): Renaming { Renaming(Self(|o.text|), Self(|o.symbols|), Self(|o.relocs|)) }

  lemma SelfHits(n: nat)
    ensures forall z :: 0 <= z < n ==> Hit(Self(n), z)
  {
    var m := Self(n);
    forall z | 0 <= z < n ensures Hit(m, z) { assert z in m && m[z] == z; }
  }

  lemma IdentityPrunes(o: Object)
    requires Sound(o) && TextInside(o)
    ensures Pruned(o, o, Identity(o))
  {
    SelfHits(|o.text|);
    SymbolsStay(o);
    RelocsStay(o);
  }

  lemma SymbolsStay(o: Object)
    requires TextInside(o)
    ensures SymsMoved(o.symbols, Self(|o.text|), o.symbols, Self(|o.symbols|), |o.symbols|)
  {
    SelfHits(|o.symbols|);
  }

  lemma RelocsStay(o: Object)
    requires Sound(o)
    ensures RelocsMoved(o.relocs, Self(|o.text|), Self(|o.symbols|), o.relocs, Self(|o.relocs|), |o.relocs|)
  {
    SelfHits(|o.relocs|);
    forall q | 0 <= q < |o.relocs|
      ensures KeepsReloc(o.relocs[q], Self(|o.text|), Self(|o.symbols|))
        && MoveReloc(o.relocs[q], Self(|o.text|), Self(|o.symbols|)) == o.relocs[q]
    {
      assert o.relocs[q].offset + 4 <= |Sec(o, o.relocs[q].inText)|;
    }
  }

  /** A covered text has each offset in a block. */
  lemma TileAt(bs: seq<Block>, size: nat, x: nat) returns (k: nat)
    requires Tiles(bs, size) && x < size
    ensures k < |bs| && InBlock(bs[k], x)
  {
    k := 0;
    while x >= bs[k].end
      invariant k < |bs| && bs[k].start <= x
      decreases |bs| - k
    {
      k := k + 1;
    }
  }

  /** The marked blocks of an object, in order; from tells which each was. */
  method Filter(blocks: seq<seq<Block>>, marks: set<BlockKey>, i: nat) returns (keep: seq<Block>, ghost from: seq<nat>)
    requires i < |blocks|
    ensures Picked(blocks, marks, i, keep, from, |blocks[i]|)
  {
    keep, from := [], [];
    var k := 0;
    while k < |blocks[i]|
      invariant 0 <= k <= |blocks[i]| && Picked(blocks, marks, i, keep, from, k)
    {
      if (i, k) in marks {
        keep, from := keep + [blocks[i][k]], from + [k];
        assert from[|from| - 1] == k;
      }
      k := k + 1;
    }
  }

  ghost predicate Picked(blocks: seq<seq<Block>>, marks: set<BlockKey>, i: nat, keep: seq<Block>, from: seq<nat>,
                         n: nat) {
    && i < |blocks| && n <= |blocks[i]| && |from| == |keep| && |keep| <= n
    && (forall j :: 0 <= j < |keep| ==> from[j] < n && keep[j] == blocks[i][from[j]] && (i, from[j]) in marks)
    && (forall j, k :: 0 <= j < k < |from| ==> from[j] < from[k])
    && (forall k: nat :: k < n && (i, k) in marks ==> k in from)
    && (|keep| == n <==> forall k: nat :: k < n ==> (i, k) in marks)
  }

  lemma PickedRanges(objs: seq<Object>, blocks: seq<seq<Block>>, marks: set<BlockKey>, i: nat, keep: seq<Block>,
                     from: seq<nat>)
    requires i < |objs| && i < |blocks| && Headed(objs[i], blocks[i])
      && Picked(blocks, marks, i, keep, from, |blocks[i]|)
    ensures RangesOk(keep, |objs[i].text|)
  {
  }

  lemma PickedKept(objs: seq<Object>, blocks: seq<seq<Block>>, marks: set<BlockKey>, i: nat, keep: seq<Block>,
                   from: seq<nat>, o': Object, ren: Renaming)
    requires i < |objs| && i < |blocks| && Headed(objs[i], blocks[i])
      && Picked(blocks, marks, i, keep, from, |blocks[i]|)
    requires Pruned(objs[i], o', ren) && OffsetsTo(keep, |objs[i].text|, ren.off, |keep|)
    ensures Kept(objs, blocks, marks, i, o', ren)
  {
    forall x: nat ensures x in ren.off <==> InMarked(blocks, marks, i, x) {
      PickedOffset(objs, blocks, marks, i, keep, from, ren.off, x);
    }
    PickedRigids(objs, blocks, marks, i, keep, from, ren.off);
  }

  lemma PickedRigids(objs: seq<Object>, blocks: seq<seq<Block>>, marks: set<BlockKey>, i: nat, keep: seq<Block>,
                     from: seq<nat>, off: map<nat, nat>)
    requires i < |objs| && i < |blocks| && Headed(objs[i], blocks[i])
      && Picked(blocks, marks, i, keep, from, |blocks[i]|)
    requires OffsetsTo(keep, |objs[i].text|, off, |keep|)
    ensures Rigid(blocks, i, off)
  {
    forall k: nat, x: nat, y: nat | Inside(blocks, (i, k), x) && Inside(blocks, (i, k), y) && x in off && y in off
      ensures off[y] + x == off[x] + y
    {
      PickedRigid(objs[i], blocks[i], k, keep, from, off, x, y);
    }
  }

  lemma PickedRigid(o: Object, bs: seq<Block>, k: nat, keep: seq<Block>, from: seq<nat>, off: map<nat, nat>, x: nat,
                    y: nat)
    requires Headed(o, bs) && k < |bs| && InBlock(bs[k], x) && InBlock(bs[k], y)
      && OffsetsTo(keep, |o.text|, off, |keep|) && x in off && y in off
    requires |from| == |keep| && (forall j :: 0 <= j < |keep| ==> from[j] < |bs| && keep[j] == bs[from[j]])
      && (forall j, l :: 0 <= j < l < |from| ==> from[j] < from[l])
    ensures off[y] + x == off[x] + y
  {
    var a := OffsetAt(keep, |o.text|, off, x);
    var b := OffsetAt(keep, |o.text|, off, y);
    SameBlock(o, bs, k, from[a], x);
    SameBlock(o, bs, k, from[b], y);
    assert a == b;
  }

  lemma SameBlock(o: Object, bs: seq<Block>, j: nat, k: nat, x: nat)
    requires Headed(o, bs) && j < |bs| && k < |bs| && InBlock(bs[j], x) && InBlock(bs[k], x)
    ensures j == k
  {
    if j < k { assert false; }
    if k < j { assert false; }
  }

  lemma PickedOffset(objs: seq<Object>, blocks: seq<seq<Block>>, marks: set<BlockKey>, i: nat, keep: seq<Block>,
                     from: seq<nat>, off: map<nat, nat>, x: nat)
    requires i < |objs| && i < |blocks| && Picked(blocks, marks, i, keep, from, |blocks[i]|)
      && OffsetsTo(keep, |objs[i].text|, off, |keep|)
    ensures x in off <==> InMarked(blocks, marks, i, x)
  {
    if x in off {
      var j := OffsetAt(keep, |objs[i].text|, off, x);
      assert Inside(blocks, (i, from[j]), x);
    }
    if InMarked(blocks, marks, i, x) {
      var k: nat :| Inside(blocks, (i, k), x) && (i, k) in marks;
      var j :| 0 <= j < |from| && from[j] == k;
      assert InBlock(keep[j], x);
    }
  }

  ghost predicate AllMarked(blocks: seq<seq<Block>>, marks: set<BlockKey>, i: nat) {
    i < |blocks| && forall k: nat :: k < |blocks[i]| ==> (i, k) in marks
  }

  /** An object with a block to lose is cut down to the others; any other stays as it is. */
  method Collect(objs: seq<Object>, blocks: seq<seq<Block>>, marks: set<BlockKey>,
                 i: nat) returns (o': Object, ghost ren: Renaming)
    requires Cuts(objs, blocks) && i < |objs|
    ensures if AllMarked(blocks, marks, i) then o' == objs[i]
      && ren == Identity(objs[i]) else Kept(objs, blocks, marks, i, o', ren)
  {
    assert CutInto(objs[i], blocks[i]);
    if |blocks[i]| == 0 {
      return objs[i], Identity(objs[i]);
    }
    var keep;
    ghost var from;
    keep, from := Filter(blocks, marks, i);
    if |keep| == |blocks[i]| {
      return objs[i], Identity(objs[i]);
    }
    PickedRanges(objs, blocks, marks, i, keep, from);
    o', ren := PruneObject(objs[i], keep);
    PickedKept(objs, blocks, marks, i, keep, from, o', ren);
  }

  // ---- all objects ----

  /** Each object with the unreachable part of its text gone. */
  ghost predicate Collected(objs: seq<Object>, blocks: seq<seq<Block>>, entry: Name, objs': seq<Object>,
                            rens: seq<Renaming>) {
    && BlocksCover(objs, blocks) && |objs'| == |objs| && |rens| == |objs|
    && forall i {:trigger CollectedAt(objs, blocks, entry, i, objs'[i], rens[i])} :: 0 <= i < |objs| ==>
      CollectedAt(objs, blocks, entry, i, objs'[i], rens[i])
  }

  ghost predicate CollectedAt(objs: seq<Object>, blocks: seq<seq<Block>>, entry: Name, i: nat, o': Object,
                              ren: Renaming) {
    i < |objs| && Pruned(objs[i], o', ren) && Rigid(blocks, i, ren.off)
      && ReachedOffsets(objs, blocks, entry, i, ren.off)
  }

  ghost predicate ReachedOffsets(objs: seq<Object>, blocks: seq<seq<Block>>, entry: Name, i: nat, off: map<nat, nat>) {
    forall x: nat :: x in off <==> InReached(objs, blocks, entry, i, x)
  }

  /** Offset x of object i is in a block that a chain of references from the entry or from data leads to. */
  ghost predicate InReached(objs: seq<Object>, blocks: seq<seq<Block>>, entry: Name, i: nat, x: nat) {
    exists k: nat :: Inside(blocks, (i, k), x) && Reached(objs, blocks, entry, (i, k))
  }

  lemma MarkedReached(objs: seq<Object>, blocks: seq<seq<Block>>, entry: Name, marks: set<BlockKey>, i: nat, o': Object,
                      ren: Renaming)
    requires Kept(objs, blocks, marks, i, o', ren) && forall k :: k in marks <==> Reached(objs, blocks, entry, k)
    ensures CollectedAt(objs, blocks, entry, i, o', ren)
  {
    var off := ren.off;
    forall x: nat ensures x in off <==> InReached(objs, blocks, entry, i, x) {
      if x in off {
        var k: nat :| Inside(blocks, (i, k), x) && (i, k) in marks;
      }
      if InReached(objs, blocks, entry, i, x) {
        var k: nat :| Inside(blocks, (i, k), x) && Reached(objs, blocks, entry, (i, k));
        assert InMarked(blocks, marks, i, x);
      }
    }
  }

  /** Every block of object i is reached, so the object stays as it is. */
  ghost predicate AllReached(objs: seq<Object>, blocks: seq<seq<Block>>, entry: Name, i: nat) {
    i < |blocks| && forall k: nat :: k < |blocks[i]| ==> Reached(objs, blocks, entry, (i, k))
  }

  ghost predicate SweptAt(objs: seq<Object>, blocks: seq<seq<Block>>, entry: Name, i: nat, o': Object, ren: Renaming) {
    forall z: int :: Shown(z, o', ren) ==> SweptTo(objs, blocks, entry, i, o', ren)
  }

  /** What collection does to object i, whatever its symbols. */
  ghost predicate SweptTo(objs: seq<Object>, blocks: seq<seq<Block>>, entry: Name, i: nat, o': Object, ren: Renaming) {
    && i < |objs|
    && if AllReached(objs, blocks, entry, i) then o' == objs[i] && ren == Identity(objs[i])
      else CollectedAt(objs, blocks, entry, i, o', ren)
  }

  ghost predicate Swept(objs: seq<Object>, blocks: seq<seq<Block>>, entry: Name, objs': seq<Object>,
                        rens: seq<Renaming>) {
    && Cuts(objs, blocks) && |objs'| == |objs| && |rens| == |objs|
    && forall i {:trigger SweptAt(objs, blocks, entry, i, objs'[i], rens[i])} ::
      0 <= i < |objs| ==> SweptAt(objs, blocks, entry, i, objs'[i], rens[i])
  }

  lemma WholeCollected(objs: seq<Object>, blocks: seq<seq<Block>>, entry: Name, i: nat)
    requires i < |objs| && Ready(objs[i]) && i < |blocks| && Tiled(objs[i], blocks[i])
      && AllReached(objs, blocks, entry, i)
    ensures CollectedAt(objs, blocks, entry, i, objs[i], Identity(objs[i]))
  {
    var o, bs := objs[i], blocks[i];
    IdentityPrunes(o);
    forall x: nat ensures x < |o.text| <==> InReached(objs, blocks, entry, i, x) {
      if x < |o.text| {
        var k := TileAt(bs, |o.text|, x);
        assert Inside(blocks, (i, k), x);
      }
    }
  }

  /** Objects as collection asks for them lose unreachable text only. */
  lemma SweptCollects(objs: seq<Object>, blocks: seq<seq<Block>>, entry: Name, objs': seq<Object>, rens: seq<Renaming>)
    requires Swept(objs, blocks, entry, objs', rens) && AllReady(objs) && BlocksCover(objs, blocks)
    ensures Collected(objs, blocks, entry, objs', rens)
  {
    forall i | 0 <= i < |objs| ensures CollectedAt(objs, blocks, entry, i, objs'[i], rens[i]) {
      assert SweptAt(objs, blocks, entry, i, objs'[i], rens[i]) && Shown(0, objs'[i], rens[i]);
      assert Ready(objs[i]) && Tiled(objs[i], blocks[i]);
      if AllReached(objs, blocks, entry, i) { WholeCollected(objs, blocks, entry, i); }
    }
  }

  /** Collects the objects. Those that are as collection asks lose unreachable text and nothing else. */
  method GcText(objs: seq<Object>,
                entry: Name) returns (objs': seq<Object>, ghost blocks: seq<seq<Block>>, ghost rens: seq<Renaming>)
    requires AllSafe(objs) && Unique(objs)
    ensures Swept(objs, blocks, entry, objs', rens)
    ensures AllReady(objs) ==> Collected(objs, blocks, entry, objs', rens)
  {
    var cut := AllBlocks(objs);
    blocks := cut;
    BlockedNow(objs, blocks);
    var marks := Mark(objs, cut, entry);
    objs', rens := CollectAll(objs, cut, entry, marks);
    if AllReady(objs) { SweptCollects(objs, blocks, entry, objs', rens); }
  }

  method CollectAll(objs: seq<Object>, blocks: seq<seq<Block>>, ghost entry: Name, marks: set<BlockKey>)
    returns (objs': seq<Object>, ghost rens: seq<Renaming>)
    requires Cuts(objs, blocks) && forall k :: k in marks <==> Reached(objs, blocks, entry, k)
    ensures Swept(objs, blocks, entry, objs', rens)
  {
    objs', rens := [], [];
    var i := 0;
    while i < |objs|
      invariant 0 <= i <= |objs| && |objs'| == i && |rens| == i
      invariant forall j {:trigger SweptAt(objs, blocks, entry, j, objs'[j], rens[j])} ::
        0 <= j < i ==> SweptAt(objs, blocks, entry, j, objs'[j], rens[j])
    {
      var o';
      ghost var ren;
      o', ren := CollectOne(objs, blocks, entry, marks, i);
      objs', rens := objs' + [o'], rens + [ren];
      i := i + 1;
    }
  }

  method CollectOne(objs: seq<Object>, blocks: seq<seq<Block>>, ghost entry: Name, marks: set<BlockKey>, i: nat)
    returns (o': Object, ghost ren: Renaming)
    requires Cuts(objs, blocks) && (forall k :: k in marks <==> Reached(objs, blocks, entry, k)) && i < |objs|
    ensures SweptAt(objs, blocks, entry, i, o', ren)
  {
    o', ren := Collect(objs, blocks, marks, i);
    if !AllMarked(blocks, marks, i) { MarkedReached(objs, blocks, entry, marks, i, o', ren); }
  }

  lemma BlockedNow(objs: seq<Object>, blocks: seq<seq<Block>>)
    requires AllSafe(objs) && Unique(objs) && Cuts(objs, blocks)
    ensures Blocked(objs, blocks) && AllSound(objs)
  {
    forall i | 0 <= i < |objs| ensures Sound(objs[i]) && HeadsInside(objs[i]) && Headed(objs[i], blocks[i]) {
      assert Safe(objs[i]) && CutInto(objs[i], blocks[i]);
    }
  }
}
