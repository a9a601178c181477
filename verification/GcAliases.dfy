/** Collection of objects whose global text symbols do not cut the text cleanly: exactly which definitions are lost. */
module GcAliases {
  import opened Folding
  import opened ObjectFormat
  import opened Resolver
  import opened Placement
  import opened TextBlocks
  import opened TextMark
  import opened TextPrune
  import opened TextGc

  // ---- symbols ----

  /** A symbol survives when its object stays whole, when it is not in the text, or when its offset is in a
      reached block. */
  lemma SymbolSurvives(objs: seq<Object>, blocks: seq<seq<Block>>, entry: Name, objs': seq<Object>, rens: seq<Renaming>,
                       j: nat, l: nat)
    requires Swept(objs, blocks, entry, objs', rens) && j < |objs| && l < |objs[j].symbols|
    ensures l in rens[j].sym <==>
      objs[j].symbols[l].section != Text || AllReached(objs, blocks, entry, j)
        || InReached(objs, blocks, entry, j, objs[j].symbols[l].value)
  {
    assert SweptAt(objs, blocks, entry, j, objs'[j], rens[j]) && Shown(0, objs'[j], rens[j]);
  }

  /** A symbol of a collected object comes from one of the object. */
  lemma DefinerBefore(objs: seq<Object>, blocks: seq<seq<Block>>, entry: Name, objs': seq<Object>, rens: seq<Renaming>,
                      j: int, z: int, n: Name)
    returns (l: nat)
    requires Swept(objs, blocks, entry, objs', rens) && Definer(objs', j, z, n)
    ensures l in rens[j].sym && rens[j].sym[l] == z && Definer(objs, j, l, n)
  {
    assert SweptAt(objs, blocks, entry, j, objs'[j], rens[j]) && Shown(0, objs'[j], rens[j]);
    if AllReached(objs, blocks, entry, j) {
      l := z;
    } else {
      assert Hit(rens[j].sym, z);
      l :| l in rens[j].sym && rens[j].sym[l] == z;
    }
  }

  lemma UniqueSwept(objs: seq<Object>, blocks: seq<seq<Block>>, entry: Name, objs': seq<Object>, rens: seq<Renaming>)
    requires Swept(objs, blocks, entry, objs', rens) && Unique(objs)
    ensures Unique(objs')
  {
    forall i, k, j, l, n | Definer(objs', i, k, n) && Definer(objs', j, l, n) ensures i == j && k == l {
      var a := DefinerBefore(objs, blocks, entry, objs', rens, i, k, n);
      var b := DefinerBefore(objs, blocks, entry, objs', rens, j, l, n);
    }
  }

  /** A name whose one definition is lost is defined no more. */
  lemma LostName(objs: seq<Object>, blocks: seq<seq<Block>>, entry: Name, objs': seq<Object>, rens: seq<Renaming>,
                 j: int, l: int, n: Name)
    requires Swept(objs, blocks, entry, objs', rens) && Unique(objs) && Definer(objs, j, l, n)
    ensures l !in rens[j].sym ==> !DefinedBy(objs', n)
  {
    if DefinedBy(objs', n) {
      var i :| 0 <= i < |objs'| && Defines(objs'[i], n);
      var z :| ExportsAt(objs'[i], z, n);
      var k := DefinerBefore(objs, blocks, entry, objs', rens, i, z, n);
      assert i == j && k == l;
    }
  }

  // ---- what a reference reaches ----

  /** The code looks at relocation q of object i: it is in the data, or at a reached offset of the text. */
  ghost predicate Scanned(objs: seq<Object>, blocks: seq<seq<Block>>, entry: Name, i: nat, q: nat) {
    && i < |objs| && q < |objs[i].relocs|
    && (objs[i].relocs[q].inText ==> InReached(objs, blocks, entry, i, objs[i].relocs[q].offset))
  }

  lemma ScannedReaches(objs: seq<Object>, blocks: seq<seq<Block>>, entry: Name, i: nat, q: nat, k: BlockKey)
    requires Scanned(objs, blocks, entry, i, q) && RelocLeads(objs, blocks, i, q, k)
    ensures Reached(objs, blocks, entry, k)
  {
    var r := objs[i].relocs[q];
    if r.inText {
      var b: nat :| Inside(blocks, (i, b), r.offset) && Reached(objs, blocks, entry, (i, b));
      assert EdgeBy(objs, blocks, (i, b), q, k);
      ReachEdge(objs, blocks, entry, (i, b), k);
    } else {
      ReachRoot(objs, blocks, entry, k);
    }
  }

  /** The block a global text symbol lies in, if any, starts there and bears its name. */
  lemma BearsName(o: Object, bs: seq<Block>, l: nat, k: nat)
    requires Headed(o, bs) && HeadAt(o, l) && k < |bs| && InBlock(bs[k], o.symbols[l].value)
    ensures o.symbols[l].name in bs[k].names
  {
    var x := o.symbols[l].value;
    assert StartsAt(bs, x);
    var h :| 0 <= h < |bs| && bs[h].start == x;
    assert h == k;
    assert NamedAt(o, x, o.symbols[l].name);
  }

  lemma TargetLeads(objs: seq<Object>, blocks: seq<seq<Block>>, i: nat, q: nat, j: nat, l: nat, k: nat)
    requires Cuts(objs, blocks) && i < |objs| && q < |objs[i].relocs|
      && Resolves(objs, i, objs[i].relocs[q].symbol, j, l)
    requires objs[j].symbols[l].section == Text && Inside(blocks, (j, k), objs[j].symbols[l].value)
    ensures RelocLeads(objs, blocks, i, q, (j, k))
  {
    assert CutInto(objs[j], blocks[j]);
    if objs[i].symbols[objs[i].relocs[q].symbol].section == Undef { BearsName(objs[j], blocks[j], l, k); }
  }

  lemma CoverAt(objs: seq<Object>, blocks: seq<seq<Block>>, j: nat, x: nat)
    requires Cuts(objs, blocks) && j < |objs|
    ensures OneHead(objs[j], x) <==> exists k: nat :: Inside(blocks, (j, k), x)
  {
    assert CutInto(objs[j], blocks[j]);
    if OneHead(objs[j], x) {
      assert InSomeBlock(blocks[j], x);
      var k :| 0 <= k < |blocks[j]| && InBlock(blocks[j][k], x);
      assert Inside(blocks, (j, k), x);
    }
    if k: nat :| Inside(blocks, (j, k), x) {
      assert InBlock(blocks[j][k], x);
      assert InSomeBlock(blocks[j], x);
    }
  }

  /**
   * The text definition that a relocation looked at means survives exactly when its object stays whole or one
   * global text symbol is nearest to it from below.
   */
  lemma TargetSurvives(objs: seq<Object>, blocks: seq<seq<Block>>, entry: Name, objs': seq<Object>, rens: seq<Renaming>,
                       i: nat, q: nat, j: nat, l: nat)
    requires Swept(objs, blocks, entry, objs', rens) && Scanned(objs, blocks, entry, i, q)
    requires Resolves(objs, i, objs[i].relocs[q].symbol, j, l) && objs[j].symbols[l].section == Text
    ensures l in rens[j].sym <==> AllReached(objs, blocks, entry, j) || OneHead(objs[j], objs[j].symbols[l].value)
  {
    var x := objs[j].symbols[l].value;
    SymbolSurvives(objs, blocks, entry, objs', rens, j, l);
    CoverAt(objs, blocks, j, x);
    if OneHead(objs[j], x) {
      var k: nat :| Inside(blocks, (j, k), x);
      TargetLeads(objs, blocks, i, q, j, l, k);
      ScannedReaches(objs, blocks, entry, i, q, (j, k));
      assert InReached(objs, blocks, entry, j, x);
    }
  }

  /** The same of the entry; and when its definition does not survive the entry is defined no more, so the link
      fails. */
  lemma EntrySurvives(objs: seq<Object>, blocks: seq<seq<Block>>, entry: Name, objs': seq<Object>, rens: seq<Renaming>,
                      j: nat, l: nat)
    requires Swept(objs, blocks, entry, objs', rens) && Unique(objs) && Definer(objs, j, l, entry)
      && objs[j].symbols[l].section == Text
    ensures l in rens[j].sym <==> AllReached(objs, blocks, entry, j) || OneHead(objs[j], objs[j].symbols[l].value)
    ensures l !in rens[j].sym ==> !DefinedBy(objs', entry)
  {
    var x := objs[j].symbols[l].value;
    SymbolSurvives(objs, blocks, entry, objs', rens, j, l);
    LostName(objs, blocks, entry, objs', rens, j, l, entry);
    CoverAt(objs, blocks, j, x);
    assert CutInto(objs[j], blocks[j]);
    if OneHead(objs[j], x) {
      var k: nat :| Inside(blocks, (j, k), x);
      BearsName(objs[j], blocks[j], l, k);
      ReachRoot(objs, blocks, entry, (j, k));
      assert InReached(objs, blocks, entry, j, x);
    }
  }

  /** Where global text symbols stand at distinct offsets, 0 among them, every offset of the text has its one. */
  lemma CleanlyCut(o: Object, x: nat)
    requires NoAliases(o) && HeadAtZero(o) && x < |o.text|
    ensures OneHead(o, x)
  {
    var s :| HeadAt(o, s) && o.symbols[s].value == 0;
    var best := Nearest(o, s, x, |o.symbols|);
    assert NearestHead(o, best, x);
  }

  lemma {:induction false} Nearest(o: Object, s: int, x: nat, n: nat) returns (best: int)
    requires NoAliases(o) && HeadAt(o, s) && o.symbols[s].value <= x && n <= |o.symbols|
    ensures HeadAt(o, best) && o.symbols[s].value <= o.symbols[best].value <= x
    ensures forall t :: HeadAt(o, t) && t < n && t != best ==>
      o.symbols[t].value < o.symbols[best].value || o.symbols[t].value > x
  {
    if n == 0 {
      best := s;
    } else {
      best := Nearest(o, s, x, n - 1);
      if HeadAt(o, n - 1) && o.symbols[best].value < o.symbols[n - 1].value <= x { best := n - 1; }
    }
  }

  // ---- an input that loses its entry ----

  /** Two names for the first function, one for the second, and no relocations. */
  function Aliased(): Object {
    Object([], [0, 0, 0, 0, 0, 0, 0, 0], [], 0,
        [Symbol([97], Text, true, 0), Symbol([98], Text, true, 0), Symbol([99], Text, true, 4)], [])
  }

  /** Without relocations only the blocks that bear the entry's name are reached. */
  lemma OnlyEntry(objs: seq<Object>, blocks: seq<seq<Block>>, entry: Name, k: BlockKey)
    requires (forall i :: 0 <= i < |objs| ==> objs[i].relocs == []) && Reached(objs, blocks, entry, k)
    ensures Bears(blocks, k, entry)
  {
    assert Shown(0, objs, k);
    var path :| Path(objs, blocks, entry, path) && path[|path| - 1] == k;
    forall i: nat ensures !Hop(objs, blocks, path, i) { }
    assert !Hop(objs, blocks, path, 0);
    assert |path| == 1;
  }

  /** Collected for its first function, the object loses that function's names: the entry is gone. */
  lemma AliasLosesEntry(blocks: seq<seq<Block>>, objs': seq<Object>, rens: seq<Renaming>)
    requires Swept([Aliased()], blocks, [97], objs', rens)
    ensures AllSafe([Aliased()]) && Unique([Aliased()]) && DefinedBy([Aliased()], [97]) && !DefinedBy(objs', [97])
  {
    var o, objs := Aliased(), [Aliased()];
    assert HeadAt(o, 0) && HeadAt(o, 1) && HeadAt(o, 2);
    assert Safe(objs[0]);
    assert Definer(objs, 0, 0, [97]) && Defines(objs[0], [97]);
    SecondLost(blocks);
    assert !OneHead(o, 0);
    EntrySurvives(objs, blocks, [97], objs', rens, 0, 0);
  }

  lemma SecondLost(blocks: seq<seq<Block>>)
    requires Cuts([Aliased()], blocks)
    ensures !AllReached([Aliased()], blocks, [97], 0)
  {
    var o, objs := Aliased(), [Aliased()];
    assert CutInto(objs[0], blocks[0]) && HeadAt(o, 2);
    assert StartsAt(blocks[0], 4);
    var k: nat :| k < |blocks[0]| && blocks[0][k].start == 4;
    assert !NamedAt(o, 4, [97]);
    if Reached(objs, blocks, [97], (0, k)) { OnlyEntry(objs, blocks, [97], (0, k)); }
  }
}
