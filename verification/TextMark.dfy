/** Which text blocks a program can reach: the entry's, those data refer to, and those reachable blocks refer to. */
module TextMark {
  import opened Folding
  import opened ObjectFormat
  import opened Resolver
  import opened Placement
  import opened TextBlocks

  /** A block: number of the object, number of the block in it. */
  type BlockKey = (nat, nat)

  predicate KeyOk(blocks: seq<seq<Block>>, k: BlockKey) { k.0 < |blocks| && k.1 < |blocks[k.0]| }

  predicate Inside(blocks: seq<seq<Block>>, k: BlockKey, x: nat) {
    KeyOk(blocks, k) && blocks[k.0][k.1].start <= x < blocks[k.0][k.1].end
  }

  predicate Bears(blocks: seq<seq<Block>>, k: BlockKey, n: Name) { KeyOk(blocks, k) && n in blocks[k.0][k.1].names }

  /** Symbol s of object i names a place in block k. */
  predicate Leads(objs: seq<Object>, blocks: seq<seq<Block>>, i: nat, s: nat, k: BlockKey) {
    && i < |objs| && s < |objs[i].symbols|
    && var sym := objs[i].symbols[s];
      if sym.section == Undef then Bears(blocks, k, sym.name)
      else sym.section == Text && k.0 == i && Inside(blocks, k, sym.value)
  }

  /** Relocation q of object i leads to block k. */
  predicate RelocLeads(objs: seq<Object>, blocks: seq<seq<Block>>, i: nat, q: nat, k: BlockKey) {
    i < |objs| && q < |objs[i].relocs| && Leads(objs, blocks, i, objs[i].relocs[q].symbol, k)
  }

  ghost predicate Root(objs: seq<Object>, blocks: seq<seq<Block>>, entry: Name, k: BlockKey) {
    Bears(blocks, k, entry) || exists i: nat, q: nat :: RelocLeads(objs, blocks, i, q, k) && !objs[i].relocs[q].inText
  }

  /** Relocation q, inside block j, leads to block k. */
  predicate EdgeBy(objs: seq<Object>, blocks: seq<seq<Block>>, j: BlockKey, q: nat, k: BlockKey) {
    RelocLeads(objs, blocks, j.0, q, k) && objs[j.0].relocs[q].inText && Inside(blocks, j, objs[j.0].relocs[q].offset)
  }

  ghost predicate Edge(objs: seq<Object>, blocks: seq<seq<Block>>, j: BlockKey, k: BlockKey) {
    exists q: nat :: EdgeBy(objs, blocks, j, q, k)
  }

  ghost predicate Rooted(objs: seq<Object>, blocks: seq<seq<Block>>, entry: Name, marks: set<BlockKey>) {
    forall k :: Root(objs, blocks, entry, k) ==> k in marks
  }

  ghost predicate Shut(objs: seq<Object>, blocks: seq<seq<Block>>, marks: set<BlockKey>) {
    forall j, k :: j in marks && Edge(objs, blocks, j, k) ==> k in marks
  }

  /** A chain of references from a root leads to the block. */
  ghost predicate Reached(objs: seq<Object>, blocks: seq<seq<Block>>, entry: Name, k: BlockKey) {
    forall z: int :: Shown(z, objs, k) ==>
      exists path: seq<BlockKey> :: Path(objs, blocks, entry, path) && path[|path| - 1] == k
  }

  /** A chain of references from a root. */
  ghost predicate Path(objs: seq<Object>, blocks: seq<seq<Block>>, entry: Name, path: seq<BlockKey>) {
    && path != [] && Root(objs, blocks, entry, path[0])
    && forall i :: 0 <= i < |path| - 1 ==> Hop(objs, blocks, path, i)
  }

  ghost predicate Hop(objs: seq<Object>, blocks: seq<seq<Block>>, path: seq<BlockKey>, i: nat) {
    i + 1 < |path| && Edge(objs, blocks, path[i], path[i + 1])
  }

  lemma ReachRoot(objs: seq<Object>, blocks: seq<seq<Block>>, entry: Name, k: BlockKey)
    requires Root(objs, blocks, entry, k)
    ensures Reached(objs, blocks, entry, k)
  {
    assert Path(objs, blocks, entry, [k]);
  }

  lemma ReachEdge(objs: seq<Object>, blocks: seq<seq<Block>>, entry: Name, j: BlockKey, k: BlockKey)
    requires Reached(objs, blocks, entry, j) && Edge(objs, blocks, j, k)
    ensures Reached(objs, blocks, entry, k)
  {
    assert Shown(0, objs, j);
    var path :| Path(objs, blocks, entry, path) && path[|path| - 1] == j;
    var more := path + [k];
    forall i | 0 <= i < |more| - 1 ensures Hop(objs, blocks, more, i) {
      if i < |path| - 1 { assert Hop(objs, blocks, path, i); }
    }
    assert Path(objs, blocks, entry, more) && more[|more| - 1] == k;
  }

  /** The blocks are those of the objects, and every name is exported once. */
  ghost predicate Blocked(objs: seq<Object>, blocks: seq<seq<Block>>) {
    && Unique(objs) && |blocks| == |objs|
    && (forall i :: 0 <= i < |objs| ==> HeadsInside(objs[i]) && Headed(objs[i], blocks[i]))
  }

  /** A name is borne by one block, and an offset lies in one. */
  lemma OneBearer(objs: seq<Object>, blocks: seq<seq<Block>>, n: Name, j: BlockKey, k: BlockKey)
    requires Blocked(objs, blocks) && Bears(blocks, j, n) && Bears(blocks, k, n)
    ensures j == k
  {
    assert Headed(objs[j.0], blocks[j.0]) && Headed(objs[k.0], blocks[k.0]);
    assert NamedAt(objs[j.0], blocks[j.0][j.1].start, n) && NamedAt(objs[k.0], blocks[k.0][k.1].start, n);
    var s :| HeadAt(objs[j.0], s) && objs[j.0].symbols[s].value == blocks[j.0][j.1].start
      && objs[j.0].symbols[s].name == n;
    var t :| HeadAt(objs[k.0], t) && objs[k.0].symbols[t].value == blocks[k.0][k.1].start
      && objs[k.0].symbols[t].name == n;
    assert Definer(objs, j.0, s, n) && Definer(objs, k.0, t, n);
    if j.1 < k.1 { assert false; }
    if k.1 < j.1 { assert false; }
  }

  lemma OneHolder(objs: seq<Object>, blocks: seq<seq<Block>>, x: nat, j: BlockKey, k: BlockKey)
    requires Blocked(objs, blocks) && Inside(blocks, j, x) && Inside(blocks, k, x) && j.0 == k.0
    ensures j == k
  {
    assert Headed(objs[j.0], blocks[j.0]);
    if j.1 < k.1 { assert false; }
    if k.1 < j.1 { assert false; }
  }

  lemma OneLead(objs: seq<Object>, blocks: seq<seq<Block>>, i: nat, s: nat, j: BlockKey, k: BlockKey)
    requires Blocked(objs, blocks) && Leads(objs, blocks, i, s, j) && Leads(objs, blocks, i, s, k)
    ensures j == k
  {
    var sym := objs[i].symbols[s];
    if sym.section == Undef { OneBearer(objs, blocks, sym.name, j, k); } else {
      OneHolder(objs, blocks, sym.value, j, k);
    }
  }

  class Marker {
    const objs: seq<Object>
    const blocks: seq<seq<Block>>
    const entry: Name
    const byName: map<Name, BlockKey>
    var reachable: set<BlockKey>
    var pending: seq<BlockKey>

    ghost predicate Sane() { forall z: int :: Shown(z, this, byName) ==> Consistent() }

    /** The names of blocks lead to their blocks. */
    ghost predicate Consistent() {
      && Blocked(objs, blocks)
      && (forall n :: n in byName ==> Bears(blocks, byName[n], n))
      && (forall n, k: BlockKey :: Bears(blocks, k, n) ==> n in byName)
    }

    /** Pending blocks are reachable; the others, but for those being scanned, have all their references marked. */
    ghost predicate Valid(scanned: set<BlockKey>)
      reads this
    {
      && Sane() && |blocks| == |objs| && (forall k :: k in pending ==> k in reachable)
      && (forall k :: k in reachable ==> KeyOk(blocks, k) && Reached(objs, blocks, entry, k))
      && (forall j, k {:trigger Edge(objs, blocks, j, k)} ::
          j in reachable && j !in pending && j !in scanned && Edge(objs, blocks, j, k) ==> k in reachable)
    }

    constructor (os: seq<Object>, bbo: seq<seq<Block>>, e: Name, names: map<Name, BlockKey>)
      requires Blocked(os, bbo) && AllSound(os)
      requires (forall n :: n in names ==> Bears(bbo, names[n], n))
        && forall n, k: BlockKey :: Bears(bbo, k, n) ==> n in names
      ensures Valid({}) && objs == os && blocks == bbo && entry == e
    {
      objs, blocks, entry, byName := os, bbo, e, names;
      reachable, pending := {}, [];
    }

    method AddBlock(k: BlockKey, ghost scanned: set<BlockKey>)
      requires Valid(scanned) && KeyOk(blocks, k) && Reached(objs, blocks, entry, k)
      modifies this
      ensures Valid(scanned) && reachable == old(reachable) + {k}
      ensures pending == if k in old(reachable) then old(pending) else old(pending) + [k]
    {
      if k in reachable {
        return;
      }
      reachable := reachable + {k};
      pending := pending + [k];
    }

    /** Marks the block that a symbol of an object names a place in, if any. */
    method AddReferenced(i: nat, s: nat, ghost scanned: set<BlockKey>)
      requires Valid(scanned) && i < |objs| && s < |objs[i].symbols|
      requires forall k :: Leads(objs, blocks, i, s, k) ==> Reached(objs, blocks, entry, k)
      modifies this
      ensures Valid(scanned) && old(reachable) <= reachable && (reachable == old(reachable) ==> pending == old(pending))
      ensures forall k :: Leads(objs, blocks, i, s, k) ==> k in reachable
    {
      assert Shown(0, this, byName);
      var sym := objs[i].symbols[s];
      if sym.section == Undef {
        if sym.name in byName {
          var k := byName[sym.name];
          assert Leads(objs, blocks, i, s, k);
          forall j | Leads(objs, blocks, i, s, j) ensures j == k { OneLead(objs, blocks, i, s, j, k); }
          AddBlock(k, scanned);
        }
        return;
      }
      if sym.section != Text {
        return;
      }
      var b := FindBlock(blocks[i], sym.value);
      if b < |blocks[i]| {
        var k := (i, b);
        assert Leads(objs, blocks, i, s, k);
        forall j | Leads(objs, blocks, i, s, j) ensures j == k { OneLead(objs, blocks, i, s, j, k); }
        AddBlock(k, scanned);
      }
    }

    /** Marks what the entry and the data relocations refer to. */
    method AddRoots()
      requires Valid({}) && AllSound(objs)
      modifies this
      ensures Valid({}) && Rooted(objs, blocks, entry, reachable)
    {
      AddEntry();
      var i := 0;
      while i < |objs|
        invariant 0 <= i <= |objs| && Valid({}) && forall k :: Bears(blocks, k, entry) ==> k in reachable
        invariant forall j: nat, q: nat, k {:trigger RelocLeads(objs, blocks, j, q, k)} ::
          j < i && RelocLeads(objs, blocks, j, q, k) && !objs[j].relocs[q].inText ==> k in reachable
      {
        AddDataRefs(i);
        i := i + 1;
      }
    }

    method AddEntry()
      requires Valid({})
      modifies this
      ensures Valid({}) && forall k :: Bears(blocks, k, entry) ==> k in reachable
    {
      assert Shown(0, this, byName);
      if entry in byName {
        ReachRoot(objs, blocks, entry, byName[entry]);
        AddBlock(byName[entry], {});
        forall k | Bears(blocks, k, entry) ensures k in reachable { OneBearer(objs, blocks, entry, k, byName[entry]); }
      }
    }

    method AddDataRefs(i: nat)
      requires Valid({}) && AllSound(objs) && i < |objs|
      modifies this
      ensures Valid({}) && old(reachable) <= reachable
      ensures forall q: nat, k {:trigger RelocLeads(objs, blocks, i, q, k)} ::
        RelocLeads(objs, blocks, i, q, k) && !objs[i].relocs[q].inText ==> k in reachable
    {
      assert Sound(objs[i]);
      var q := 0;
      while q < |objs[i].relocs|
        invariant 0 <= q <= |objs[i].relocs| && Valid({}) && old(reachable) <= reachable
        invariant forall p: nat, k {:trigger RelocLeads(objs, blocks, i, p, k)} ::
          p < q && RelocLeads(objs, blocks, i, p, k) && !objs[i].relocs[p].inText ==> k in reachable
      {
        if !objs[i].relocs[q].inText {
          forall k | Leads(objs, blocks, i, objs[i].relocs[q].symbol, k) ensures Reached(objs, blocks, entry, k) {
            assert RelocLeads(objs, blocks, i, q, k);
            ReachRoot(objs, blocks, entry, k);
          }
          AddReferenced(i, objs[i].relocs[q].symbol, {});
        }
        q := q + 1;
      }
    }

    method ScanOne(j: BlockKey, q: nat)
      requires Valid({j}) && AllSound(objs) && j in reachable && q < |objs[j.0].relocs|
      modifies this
      ensures Valid({j}) && old(reachable) <= reachable && (reachable == old(reachable) ==> pending == old(pending))
      ensures forall k :: EdgeBy(objs, blocks, j, q, k) ==> k in reachable
    {
      assert Sound(objs[j.0]);
      var r := objs[j.0].relocs[q];
      if r.inText && blocks[j.0][j.1].start <= r.offset < blocks[j.0][j.1].end {
        forall k | Leads(objs, blocks, j.0, r.symbol, k) ensures Reached(objs, blocks, entry, k) {
          assert EdgeBy(objs, blocks, j, q, k);
          ReachEdge(objs, blocks, entry, j, k);
        }
        AddReferenced(j.0, r.symbol, {j});
      }
    }

    /** Marks what the relocations inside a block refer to. */
    method Scan(j: BlockKey)
      requires Valid({j}) && AllSound(objs) && j in reachable
      modifies this
      ensures Valid({}) && old(reachable) <= reachable && (reachable == old(reachable) ==> pending == old(pending))
    {
      var q := 0;
      while q < |objs[j.0].relocs|
        invariant 0 <= q <= |objs[j.0].relocs| && Valid({j}) && old(reachable) <= reachable
          && (reachable == old(reachable) ==> pending == old(pending))
        invariant forall p: nat, k {:trigger EdgeBy(objs, blocks, j, p, k)} ::
          p < q && EdgeBy(objs, blocks, j, p, k) ==> k in reachable
      {
        ScanOne(j, q);
        q := q + 1;
      }
      Scanned(j);
    }

    lemma Scanned(j: BlockKey)
      requires Valid({j}) && j.0 < |objs|
      requires forall p: nat, k {:trigger EdgeBy(objs, blocks, j, p, k)} :: EdgeBy(objs, blocks, j, p, k) ==>
        k in reachable
      ensures Valid({})
    {
      forall k | Edge(objs, blocks, j, k) ensures k in reachable { }
    }

    method Pop() returns (j: BlockKey)
      requires Valid({}) && pending != []
      modifies `pending
      ensures Valid({j}) && j in reachable && |pending| == old(|pending|) - 1
    {
      j := pending[|pending| - 1];
      assert forall k :: k in pending ==> k == j || k in pending[..|pending| - 1];
      pending := pending[..|pending| - 1];
    }

    /** Takes pending blocks up until none is left. */
    method Drain()
      requires Valid({}) && AllSound(objs)
      modifies this
      ensures Valid({}) && old(reachable) <= reachable && Shut(objs, blocks, reachable)
    {
      while pending != []
        invariant Valid({}) && old(reachable) <= reachable
        decreases AllKeys(blocks) - reachable, |pending|
      {
        ghost var before := reachable;
        var j := Pop();
        Scan(j);
        Shrinks(blocks, before, reachable);
      }
    }
  }

  ghost function AllKeys(blocks: seq<seq<Block>>): set<BlockKey> {
    set i: nat, k: nat | i < |blocks| && k < |blocks[i]| :: (i, k)
  }

  lemma Shrinks(blocks: seq<seq<Block>>, before: set<BlockKey>, after: set<BlockKey>)
    requires before <= after && forall k :: k in after ==> KeyOk(blocks, k)
    ensures before == after || AllKeys(blocks) - after < AllKeys(blocks) - before
  {
    if before != after {
      var k :| k in after && k !in before;
      assert k == (k.0, k.1) && k in AllKeys(blocks);
    }
  }

  method FindBlock(bs: seq<Block>, x: nat) returns (b: nat)
    ensures b <= |bs| && (b < |bs| ==> bs[b].start <= x < bs[b].end)
    ensures b == |bs| ==> forall k :: 0 <= k < |bs| ==> !(bs[k].start <= x < bs[k].end)
  {
    b := 0;
    while b < |bs|
      invariant 0 <= b <= |bs| && forall k :: 0 <= k < b ==> !(bs[k].start <= x < bs[k].end)
    {
      if x >= bs[b].start && x < bs[b].end {
        return;
      }
      b := b + 1;
    }
  }

  /** Where each name's block is. */
  method NameBlocks(objs: seq<Object>, blocks: seq<seq<Block>>) returns (byName: map<Name, BlockKey>)
    requires Blocked(objs, blocks)
    ensures forall n :: n in byName ==> Bears(blocks, byName[n], n)
    ensures forall n, k: BlockKey :: Bears(blocks, k, n) ==> n in byName
  {
    byName := map[];
    var i := 0;
    while i < |blocks|
      invariant 0 <= i <= |blocks| && (forall n :: n in byName ==> Bears(blocks, byName[n], n))
      invariant forall n, k: BlockKey :: Bears(blocks, k, n) && k.0 < i ==> n in byName
    {
      var b := 0;
      while b < |blocks[i]|
        invariant 0 <= b <= |blocks[i]| && (forall n :: n in byName ==> Bears(blocks, byName[n], n))
        invariant forall n, k: BlockKey :: Bears(blocks, k, n) && (k.0 < i || (k.0 == i && k.1 < b)) ==> n in byName
      {
        ghost var before := byName;
        byName := byName + map n | n in blocks[i][b].names :: (i, b);
        forall n, k: BlockKey | Bears(blocks, k, n) && (k.0 < i || (k.0 == i && k.1 < b + 1)) ensures n in byName {
          assert n in before || n in blocks[i][b].names;
        }
        b := b + 1;
      }
      i := i + 1;
    }
  }

  /** The reachable blocks: exactly those that a chain of references from the entry or from data leads to. */
  method Mark(objs: seq<Object>, blocks: seq<seq<Block>>, entry: Name) returns (marks: set<BlockKey>)
    requires Blocked(objs, blocks) && AllSound(objs)
    ensures forall k :: k in marks <==> Reached(objs, blocks, entry, k)
  {
    var byName := NameBlocks(objs, blocks);
    var m := new Marker(objs, blocks, entry, byName);
    m.AddRoots();
    m.Drain();
    marks := m.reachable;
    forall k | Reached(objs, blocks, entry, k) ensures k in marks { ReachedMarked(objs, blocks, entry, marks, k); }
  }

  lemma ReachedMarked(objs: seq<Object>, blocks: seq<seq<Block>>, entry: Name, marks: set<BlockKey>, k: BlockKey)
    requires Rooted(objs, blocks, entry, marks) && Shut(objs, blocks, marks) && Reached(objs, blocks, entry, k)
    ensures k in marks
  {
    assert Shown(0, objs, k);
    var path :| Path(objs, blocks, entry, path) && path[|path| - 1] == k;
    PathMarked(objs, blocks, entry, marks, path, |path| - 1);
  }

  lemma {:induction false} PathMarked(objs: seq<Object>, blocks: seq<seq<Block>>, entry: Name, marks: set<BlockKey>,
                                      path: seq<BlockKey>, i: nat)
    requires Rooted(objs, blocks, entry, marks) && Shut(objs, blocks, marks) && Path(objs, blocks, entry, path)
      && i < |path|
    ensures path[i] in marks
  {
    if i > 0 {
      PathMarked(objs, blocks, entry, marks, path, i - 1);
      assert Hop(objs, blocks, path, i - 1);
    }
  }
}
