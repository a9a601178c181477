/** The blocks that an object's global text symbols cut its text into. */
module TextBlocks {
  import opened ObjectFormat

  datatype Block = Block(start: nat, end: nat, names: set<Name>)

  predicate IsHead(s: Symbol) { s.section == Text && s.global }

  predicate HeadAt(o: Object, s: int) { 0 <= s < |o.symbols| && IsHead(o.symbols[s]) }

  /** Each offset of the text lies in exactly one block. */
  predicate Tiles(bs: seq<Block>, size: nat) {
    && bs != [] && bs[0].start == 0 && bs[|bs| - 1].end == size
    && (forall k :: 0 <= k < |bs| ==> bs[k].start < bs[k].end)
    && (forall k :: 0 <= k < |bs| - 1 ==> bs[k].end == bs[k + 1].start)
  }

  /** No two global text symbols share an offset. */
  ghost predicate NoAliases(o: Object) {
    forall s, t :: HeadAt(o, s) && HeadAt(o, t) && s != t ==> o.symbols[s].value != o.symbols[t].value
  }

  /** Global text symbols lie within the text or at its end. */
  ghost predicate HeadsInside(o: Object) { forall s :: HeadAt(o, s) ==> o.symbols[s].value <= |o.text| }

  ghost predicate NoneAtEnd(o: Object) { forall s :: HeadAt(o, s) ==> o.symbols[s].value != |o.text| }

  ghost predicate HeadAtZero(o: Object) { HeadStands(o, 0) }

  /** Blocks start in order at the global text symbols and are named by them. */
  ghost predicate Headed(o: Object, bs: seq<Block>) {
    && (forall k :: 0 <= k < |bs| ==> bs[k].start <= bs[k].end <= |o.text|)
    && (forall j, k :: 0 <= j < k < |bs| ==> bs[j].end <= bs[k].start && bs[j].start < bs[k].start)
    && (forall k, n :: 0 <= k < |bs| ==> (n in bs[k].names <==> NamedAt(o, bs[k].start, n)))
    && (forall s :: HeadAt(o, s) ==> StartsAt(bs, o.symbols[s].value))
    && (forall k :: 0 <= k < |bs| ==> HeadStands(o, bs[k].start))
  }

  ghost predicate HeadStands(o: Object, x: nat) { exists s :: HeadAt(o, s) && o.symbols[s].value == x }

  ghost predicate NamedAt(o: Object, x: nat, n: Name) {
    exists s :: HeadAt(o, s) && o.symbols[s].value == x && o.symbols[s].name == n
  }

  ghost predicate StartsAt(bs: seq<Block>, x: nat) { exists k :: 0 <= k < |bs| && bs[k].start == x }

  predicate InBlock(b: Block, x: int) { b.start <= x < b.end }

  ghost predicate InSomeBlock(bs: seq<Block>, x: int) { exists k :: 0 <= k < |bs| && InBlock(bs[k], x) }

  /** s is the one global text symbol nearest to x from below: none lies between, none shares its offset. */
  ghost predicate NearestHead(o: Object, s: int, x: int) {
    && HeadAt(o, s) && o.symbols[s].value <= x < |o.text|
    && forall t :: HeadAt(o, t) && t != s ==> o.symbols[t].value < o.symbols[s].value || o.symbols[t].value > x
  }

  ghost predicate OneHead(o: Object, x: int) { exists s :: NearestHead(o, s, x) }

  /** An offset is in a block exactly when one global text symbol is nearest to it from below. */
  ghost predicate CoverIs(o: Object, bs: seq<Block>) { forall x :: InSomeBlock(bs, x) <==> OneHead(o, x) }

  // ---- sorting by offset ----

  predicate Sorted(v: seq<Symbol>) { forall i, j :: 0 <= i < j < |v| ==> v[i].value <= v[j].value }

  function Insert(v: seq<Symbol>, s: Symbol): (r: seq<Symbol>)
    requires Sorted(v)
    ensures Sorted(r) && forall x :: x in r <==> x in v || x == s
  {
    if v == [] || v[|v| - 1].value <= s.value then v + [s]
    else
      var front, last := v[..|v| - 1], v[|v| - 1];
      assert v == front + [last];
      var r := Insert(front, s);
      assert forall i :: 0 <= i < |r| ==> r[i] in r;
      r + [last]
  }

  /** Sorting keeps the symbols and orders their offsets. */
  function Sort(v: seq<Symbol>): (r: seq<Symbol>)
    ensures Sorted(r) && forall x :: x in r <==> x in v
  {
    if v == [] then []
    else
      assert v == v[..|v| - 1] + [v[|v| - 1]];
      Insert(Sort(v[..|v| - 1]), v[|v| - 1])
  }

  function Heads(symbols: seq<Symbol>): seq<Symbol> {
    if symbols == [] then []
    else Heads(symbols[..|symbols| - 1]) + if IsHead(symbols[|symbols| - 1]) then [symbols[|symbols| - 1]] else []
  }

  lemma {:induction false} HeadsAre(symbols: seq<Symbol>, s: Symbol)
    ensures s in Heads(symbols) <==> s in symbols && IsHead(s)
  {
    if symbols != [] {
      var m := |symbols| - 1;
      HeadsAre(symbols[..m], s);
      assert symbols == symbols[..m] + [symbols[m]];
    }
  }

  /** No two of the symbols share an offset. */
  predicate Distinct(v: seq<Symbol>) { forall i, j :: 0 <= i < j < |v| ==> v[i].value != v[j].value }

  predicate Holds(v: seq<Symbol>, x: nat) { exists i :: 0 <= i < |v| && v[i].value == x }

  lemma HoldsMore(v: seq<Symbol>, s: Symbol, x: nat)
    ensures Holds(v + [s], x) <==> Holds(v, x) || s.value == x
    ensures Distinct(v + [s]) <==> Distinct(v) && !Holds(v, s.value)
  {
    var w := v + [s];
    assert w[|v|] == s;
    assert forall i :: 0 <= i < |v| ==> w[i] == v[i];
    if Holds(v, x) {
      var i :| 0 <= i < |v| && v[i].value == x;
      assert w[i].value == x;
    }
    if Holds(v, s.value) {
      var i :| 0 <= i < |v| && v[i].value == s.value;
      assert w[i].value == w[|v|].value;
    }
    if Distinct(w) {
      forall i, j | 0 <= i < j < |v| ensures v[i].value != v[j].value { assert w[i].value != w[j].value; }
    }
  }

  lemma {:induction false} InsertDistinct(v: seq<Symbol>, s: Symbol, x: nat)
    requires Sorted(v)
    ensures Holds(Insert(v, s), x) <==> Holds(v, x) || s.value == x
    ensures Distinct(Insert(v, s)) <==> Distinct(v) && !Holds(v, s.value)
  {
    if v == [] || v[|v| - 1].value <= s.value {
      HoldsMore(v, s, x);
    } else {
      var front, last := v[..|v| - 1], v[|v| - 1];
      assert v == front + [last];
      InsertDistinct(front, s, x);
      InsertDistinct(front, s, last.value);
      HoldsMore(front, last, x);
      HoldsMore(front, last, s.value);
      HoldsMore(Insert(front, s), last, x);
    }
  }

  lemma {:induction false} SortDistinct(v: seq<Symbol>, x: nat)
    ensures Holds(Sort(v), x) <==> Holds(v, x)
    ensures Distinct(Sort(v)) <==> Distinct(v)
  {
    if v != [] {
      var front, last := v[..|v| - 1], v[|v| - 1];
      assert v == front + [last];
      SortDistinct(front, x);
      SortDistinct(front, last.value);
      InsertDistinct(Sort(front), last, x);
      HoldsMore(front, last, x);
    }
  }

  ghost predicate HeadsApart(symbols: seq<Symbol>) {
    forall s, t :: 0 <= s < t < |symbols| && IsHead(symbols[s]) && IsHead(symbols[t]) ==>
      symbols[s].value != symbols[t].value
  }

  lemma HeadsDistinct(symbols: seq<Symbol>)
    ensures Distinct(Heads(symbols)) <==> HeadsApart(symbols)
  {
    var h := Heads(symbols);
    if !Distinct(h) {
      var p, q :| 0 <= p < q < |h| && h[p].value == h[q].value;
      var s, t := HeadsTwo(symbols, p, q);
    }
    if !HeadsApart(symbols) {
      var s, t :| 0 <= s < t < |symbols| && IsHead(symbols[s]) && IsHead(symbols[t])
        && symbols[s].value == symbols[t].value;
      var p, q := TwoHeads(symbols, s, t);
    }
  }

  lemma HeadsHold(symbols: seq<Symbol>, x: nat)
    ensures Holds(Heads(symbols), x) <==> exists s :: 0 <= s < |symbols| && IsHead(symbols[s]) && symbols[s].value == x
  {
    var h := Heads(symbols);
    if Holds(h, x) {
      var i :| 0 <= i < |h| && h[i].value == x;
      HeadsAre(symbols, h[i]);
      assert h[i] in h;
      var s :| 0 <= s < |symbols| && symbols[s] == h[i];
    }
    if s :| 0 <= s < |symbols| && IsHead(symbols[s]) && symbols[s].value == x {
      HeadsAre(symbols, symbols[s]);
      assert symbols[s] in symbols;
      var i :| 0 <= i < |h| && h[i] == symbols[s];
    }
  }

  // ---- cutting ----

  function NextStart(starts: seq<Symbol>, i: nat, size: nat): nat {
    if i + 1 < |starts| then starts[i + 1].value else size
  }

  /** Each block comes from the first of the symbols at its start, and each of the first i symbols starts a block. */
  ghost predicate CutUpTo(starts: seq<Symbol>, size: nat, bs: seq<Block>, first: seq<nat>, i: nat) {
    && |first| == |bs| && i <= |starts|
    && (forall k :: 0 <= k < |bs| ==>
        first[k] < i
        && bs[k] == Block(starts[first[k]].value, NextStart(starts, first[k], size),
          NamesAt(starts, starts[first[k]].value)))
    && (forall j, k :: 0 <= j < k < |bs| ==> first[j] < first[k] && bs[j].start < bs[k].start)
    && (forall j :: 0 <= j < i ==> CutBy(starts, bs, first, j))
    && (i > 0 ==> bs != [] && bs[|bs| - 1].start == starts[i - 1].value)
    && (Distinct(starts) ==> |bs| == i && forall k :: 0 <= k < i ==> first[k] == k)
  }

  ghost predicate CutBy(starts: seq<Symbol>, bs: seq<Block>, first: seq<nat>, j: nat) {
    exists k :: 0 <= k < |bs| && k < |first| && j < |starts| && bs[k].start == starts[j].value && first[k] <= j
  }

  function NamesAt(starts: seq<Symbol>, x: nat): set<Name> { set s | s in starts && s.value == x :: s.name }

  lemma CutByKept(starts: seq<Symbol>, bs: seq<Block>, first: seq<nat>, j: nat, b: Block, f: nat)
    requires CutBy(starts, bs, first, j) && |first| == |bs|
    ensures CutBy(starts, bs + [b], first + [f], j)
  {
    var k :| 0 <= k < |bs| && bs[k].start == starts[j].value && first[k] <= j;
    assert (bs + [b])[k] == bs[k] && (first + [f])[k] == first[k];
  }

  lemma CutNext(starts: seq<Symbol>, size: nat, bs: seq<Block>, first: seq<nat>, i: nat, b: Block)
    requires Sorted(starts) && CutUpTo(starts, size, bs, first, i) && i < |starts|
    requires i > 0 ==> starts[i].value != starts[i - 1].value
    requires b == Block(starts[i].value, NextStart(starts, i, size), NamesAt(starts, starts[i].value))
    ensures CutUpTo(starts, size, bs + [b], first + [i], i + 1)
  {
    var bs', first' := bs + [b], first + [i];
    forall j | 0 <= j < i + 1 ensures CutBy(starts, bs', first', j) {
      if j < i { CutByKept(starts, bs, first, j, b, i); } else { CutByLast(starts, bs, first, b, i); }
    }
    LastStarts(starts, size, bs, first, i);
    forall j, k | 0 <= j < k < |bs'| ensures first'[j] < first'[k] && bs'[j].start < bs'[k].start {
      if k == |bs| { assert first[j] < i && bs[j].start < starts[i].value; }
    }
  }

  lemma CutByLast(starts: seq<Symbol>, bs: seq<Block>, first: seq<nat>, b: Block, i: nat)
    requires i < |starts| && |first| == |bs| && b.start == starts[i].value
    ensures CutBy(starts, bs + [b], first + [i], i)
  {
    assert (bs + [b])[|bs|] == b && (first + [i])[|bs|] == i;
  }

  /** All blocks so far start before a symbol at a new offset. */
  lemma LastStarts(starts: seq<Symbol>, size: nat, bs: seq<Block>, first: seq<nat>, i: nat)
    requires Sorted(starts) && CutUpTo(starts, size, bs, first, i) && i < |starts|
      && (i > 0 ==> starts[i].value != starts[i - 1].value)
    ensures forall k :: 0 <= k < |bs| ==> bs[k].start < starts[i].value
  {
    forall k | 0 <= k < |bs| ensures bs[k].start < starts[i].value {
      assert first[k] < i && starts[first[k]].value <= starts[i - 1].value;
    }
  }

  lemma CutSkip(starts: seq<Symbol>, size: nat, bs: seq<Block>, first: seq<nat>, i: nat)
    requires Sorted(starts) && CutUpTo(starts, size, bs, first, i) && 0 < i < |starts|
      && starts[i].value == starts[i - 1].value
    ensures CutUpTo(starts, size, bs, first, i + 1)
  {
    assert CutBy(starts, bs, first, i - 1);
    assert CutBy(starts, bs, first, i);
  }

  method Cut(starts: seq<Symbol>, size: nat) returns (bs: seq<Block>, ghost first: seq<nat>)
    requires Sorted(starts)
    ensures CutUpTo(starts, size, bs, first, |starts|)
  {
    bs, first := [], [];
    var i := 0;
    while i < |starts|
      invariant 0 <= i <= |starts| && CutUpTo(starts, size, bs, first, i)
    {
      var start := starts[i].value;
      var end := NextStart(starts, i, size);
      var names := NamesAt(starts, start);
      if |bs| > 0 && bs[|bs| - 1].start == start {
        CutSkip(starts, size, bs, first, i);
      } else {
        CutNext(starts, size, bs, first, i, Block(start, end, names));
        bs, first := bs + [Block(start, end, names)], first + [i];
      }
      i := i + 1;
    }
  }

  /** Two symbols at one offset leave an empty block there. */
  lemma AliasEmpty(starts: seq<Symbol>, size: nat, bs: seq<Block>, first: seq<nat>) returns (k: nat)
    requires Sorted(starts) && CutUpTo(starts, size, bs, first, |starts|) && !Distinct(starts)
    ensures k < |bs| && bs[k].start == bs[k].end
  {
    var p, q :| 0 <= p < q < |starts| && starts[p].value == starts[q].value;
    assert CutBy(starts, bs, first, p);
    k :| 0 <= k < |bs| && bs[k].start == starts[p].value && first[k] <= p;
    assert first[k] + 1 <= q;
  }

  lemma CutTiles(starts: seq<Symbol>, size: nat, bs: seq<Block>, first: seq<nat>)
    requires Sorted(starts) && CutUpTo(starts, size, bs, first, |starts|)
      && forall i :: 0 <= i < |starts| ==> starts[i].value <= size
    ensures Tiles(bs, size) <==> Distinct(starts) && Holds(starts, 0) && !Holds(starts, size)
  {
    if !Distinct(starts) {
      var k := AliasEmpty(starts, size, bs, first);
    } else if Holds(starts, size) {
      var i :| 0 <= i < |starts| && starts[i].value == size;
      assert CutBy(starts, bs, first, i);
      var k :| 0 <= k < |bs| && bs[k].start == starts[i].value;
    } else {
      if Holds(starts, 0) {
        var i :| 0 <= i < |starts| && starts[i].value == 0;
        assert starts[0].value == 0;
      }
      if Tiles(bs, size) { assert starts[0].value == 0; }
    }
  }

  /** Being among the sorted heads, and being a head of the object. */
  lemma SortedHeads(o: Object, s: Symbol)
    ensures s in Sort(Heads(o.symbols)) <==> s in o.symbols && IsHead(s)
  {
    HeadsAre(o.symbols, s);
  }

  lemma CutOrdered(starts: seq<Symbol>, size: nat, bs: seq<Block>, first: seq<nat>)
    requires Sorted(starts) && CutUpTo(starts, size, bs, first, |starts|)
      && forall i :: 0 <= i < |starts| ==> starts[i].value <= size
    ensures forall k :: 0 <= k < |bs| ==> bs[k].start <= bs[k].end <= size
    ensures forall j, k :: 0 <= j < k < |bs| ==> bs[j].end <= bs[k].start && bs[j].start < bs[k].start
  {
    forall j, k | 0 <= j < k < |bs| ensures bs[j].end <= bs[k].start {
      assert first[j] < first[k];
      assert first[j] + 1 < first[k] ==> starts[first[j] + 1].value <= starts[first[k]].value;
    }
  }

  lemma CutHeaded(o: Object, starts: seq<Symbol>, bs: seq<Block>, first: seq<nat>)
    requires HeadsInside(o) && starts == Sort(Heads(o.symbols)) && CutUpTo(starts, |o.text|, bs, first, |starts|)
    ensures Headed(o, bs)
  {
    forall s ensures s in starts <==> s in o.symbols && IsHead(s) { SortedHeads(o, s); }
    StartsInside(o, starts);
    CutOrdered(starts, |o.text|, bs, first);
    forall x, n ensures n in NamesAt(starts, x) <==> NamedAt(o, x, n) { NamesAre(o, starts, x, n); }
    forall k | 0 <= k < |bs| ensures HeadStands(o, bs[k].start) { Stands(o, starts, first[k]); }
    forall s | HeadAt(o, s) ensures StartsAt(bs, o.symbols[s].value) { Starts(o, starts, bs, first, s); }
  }

  lemma Stands(o: Object, starts: seq<Symbol>, i: nat)
    requires (forall s :: s in starts <==> s in o.symbols && IsHead(s)) && i < |starts|
    ensures HeadStands(o, starts[i].value)
  {
    assert starts[i] in starts;
    var s :| 0 <= s < |o.symbols| && o.symbols[s] == starts[i];
    assert HeadAt(o, s);
  }

  lemma Starts(o: Object, starts: seq<Symbol>, bs: seq<Block>, first: seq<nat>, s: nat)
    requires (forall s :: s in starts <==> s in o.symbols && IsHead(s)) && HeadAt(o, s)
    requires forall j :: 0 <= j < |starts| ==> CutBy(starts, bs, first, j)
    ensures StartsAt(bs, o.symbols[s].value)
  {
    assert o.symbols[s] in o.symbols;
    var j :| 0 <= j < |starts| && starts[j] == o.symbols[s];
    assert CutBy(starts, bs, first, j);
  }

  lemma NamesAre(o: Object, starts: seq<Symbol>, x: nat, n: Name)
    requires forall s :: s in starts <==> s in o.symbols && IsHead(s)
    ensures n in NamesAt(starts, x) <==> NamedAt(o, x, n)
  {
    if n in NamesAt(starts, x) {
      var v :| v in starts && v.value == x && v.name == n;
      var s :| 0 <= s < |o.symbols| && o.symbols[s] == v;
      assert HeadAt(o, s);
    }
    if NamedAt(o, x, n) {
      var s :| HeadAt(o, s) && o.symbols[s].value == x && o.symbols[s].name == n;
      assert o.symbols[s] in starts;
    }
  }

  /**
   * Cuts the text at its global symbols. The blocks cover the text, each offset once, exactly when a
   * global symbol stands at offset 0, none at the end, and no two at one offset.
   */
  method TextBlocks(o: Object) returns (bs: seq<Block>)
    requires HeadsInside(o)
    ensures Headed(o, bs) && CoverIs(o, bs) && (bs == [] <==> forall s :: !HeadAt(o, s))
    ensures Tiles(bs, |o.text|) <==> HeadAtZero(o) && NoAliases(o) && NoneAtEnd(o)
  {
    var starts := Sort(Heads(o.symbols));
    ghost var first;
    bs, first := Cut(starts, |o.text|);
    CutHeaded(o, starts, bs, first);
    CutCovers(o, starts, bs, first);
    Covering(o, starts, bs, first);
  }

  lemma Covering(o: Object, starts: seq<Symbol>, bs: seq<Block>, first: seq<nat>)
    requires HeadsInside(o) && starts == Sort(Heads(o.symbols)) && CutUpTo(starts, |o.text|, bs, first, |starts|)
    ensures bs == [] <==> forall s :: !HeadAt(o, s)
    ensures Tiles(bs, |o.text|) <==> HeadAtZero(o) && NoAliases(o) && NoneAtEnd(o)
  {
    StartsInside(o, starts);
    CutTiles(starts, |o.text|, bs, first);
    StartsAre(o, starts);
    EndIs(o, starts);
    assert bs == [] <==> starts == [];
  }

  lemma StartsInside(o: Object, starts: seq<Symbol>)
    requires HeadsInside(o) && starts == Sort(Heads(o.symbols))
    ensures forall i :: 0 <= i < |starts| ==> starts[i].value <= |o.text|
  {
    forall i | 0 <= i < |starts| ensures starts[i].value <= |o.text| {
      SortedHeads(o, starts[i]);
      assert starts[i] in starts;
      var s :| 0 <= s < |o.symbols| && o.symbols[s] == starts[i];
      assert HeadAt(o, s);
    }
  }

  lemma EndIs(o: Object, starts: seq<Symbol>)
    requires starts == Sort(Heads(o.symbols))
    ensures NoneAtEnd(o) <==> !Holds(starts, |o.text|)
  {
    if Holds(starts, |o.text|) {
      var i :| 0 <= i < |starts| && starts[i].value == |o.text|;
      SortedHeads(o, starts[i]);
      assert starts[i] in starts;
      var s :| 0 <= s < |o.symbols| && o.symbols[s] == starts[i];
      assert HeadAt(o, s);
    }
    if s :| HeadAt(o, s) && o.symbols[s].value == |o.text| {
      SortedHeads(o, o.symbols[s]);
      assert o.symbols[s] in starts;
    }
  }

  lemma StartsAre(o: Object, starts: seq<Symbol>)
    requires starts == Sort(Heads(o.symbols))
    ensures starts == [] <==> forall s :: !HeadAt(o, s)
    ensures HeadAtZero(o) <==> Holds(starts, 0)
    ensures NoAliases(o) <==> Distinct(starts)
  {
    SortDistinct(Heads(o.symbols), 0);
    HeadsDistinct(o.symbols);
    HeadsHold(o.symbols, 0);
    ApartIs(o);
    if starts != [] {
      SortedHeads(o, starts[0]);
      var s :| 0 <= s < |o.symbols| && o.symbols[s] == starts[0];
      assert HeadAt(o, s);
    }
    if s :| HeadAt(o, s) { SortedHeads(o, o.symbols[s]); }
    ZeroIs(o);
  }

  lemma ApartIs(o: Object)
    ensures NoAliases(o) <==> HeadsApart(o.symbols)
  {
    if NoAliases(o) {
      forall s, t | 0 <= s < t < |o.symbols| && IsHead(o.symbols[s]) && IsHead(o.symbols[t])
        ensures o.symbols[s].value != o.symbols[t].value
      {
        assert HeadAt(o, s) && HeadAt(o, t);
      }
    }
  }

  lemma ZeroIs(o: Object)
    ensures HeadAtZero(o) <==> exists s :: 0 <= s < |o.symbols| && IsHead(o.symbols[s]) && o.symbols[s].value == 0
  {
    if s :| 0 <= s < |o.symbols| && IsHead(o.symbols[s]) && o.symbols[s].value == 0 { assert HeadAt(o, s); }
  }

  // ---- how many symbols at an offset ----

  function CountAt(v: seq<Symbol>, x: nat): nat {
    if v == [] then 0 else CountAt(v[..|v| - 1], x) + if v[|v| - 1].value == x then 1 else 0
  }

  lemma CountMore(v: seq<Symbol>, s: Symbol, x: nat)
    ensures CountAt(v + [s], x) == CountAt(v, x) + if s.value == x then 1 else 0
  {
    assert (v + [s])[..|v|] == v;
  }

  lemma {:induction false} SortCount(v: seq<Symbol>, x: nat)
    ensures CountAt(Sort(v), x) == CountAt(v, x)
  {
    if v != [] {
      SortCount(v[..|v| - 1], x);
      InsertCount(Sort(v[..|v| - 1]), v[|v| - 1], x);
    }
  }

  lemma {:induction false} InsertCount(v: seq<Symbol>, s: Symbol, x: nat)
    requires Sorted(v)
    ensures CountAt(Insert(v, s), x) == CountAt(v, x) + if s.value == x then 1 else 0
  {
    if v == [] || v[|v| - 1].value <= s.value {
      CountMore(v, s, x);
    } else {
      var front, last := v[..|v| - 1], v[|v| - 1];
      InsertCount(front, s, x);
      CountMore(Insert(front, s), last, x);
    }
  }

  lemma {:induction false} CountTwo(v: seq<Symbol>, p: nat, q: nat, x: nat)
    requires p < q < |v| && v[p].value == x == v[q].value
    ensures CountAt(v, x) >= 2
  {
    var m := |v| - 1;
    if q < m { CountTwo(v[..m], p, q, x); } else { CountOne(v[..m], p, x); }
  }

  lemma {:induction false} CountOne(v: seq<Symbol>, p: nat, x: nat)
    requires p < |v| && v[p].value == x
    ensures CountAt(v, x) >= 1
  {
    var m := |v| - 1;
    if p < m { CountOne(v[..m], p, x); }
  }

  lemma {:induction false} TwoCounted(v: seq<Symbol>, x: nat) returns (p: nat, q: nat)
    requires CountAt(v, x) >= 2
    ensures p < q < |v| && v[p].value == x == v[q].value
  {
    var m := |v| - 1;
    if v[m].value == x {
      p := OneCounted(v[..m], x);
      q := m;
    } else {
      p, q := TwoCounted(v[..m], x);
    }
  }

  lemma {:induction false} OneCounted(v: seq<Symbol>, x: nat) returns (p: nat)
    requires CountAt(v, x) >= 1
    ensures p < |v| && v[p].value == x
  {
    var m := |v| - 1;
    if v[m].value == x { p := m; } else { p := OneCounted(v[..m], x); }
  }

  /** Two symbols among the heads are two symbols of the object, and back. */
  lemma {:induction false} HeadsTwo(symbols: seq<Symbol>, p: nat, q: nat) returns (s: nat, t: nat)
    requires p < q < |Heads(symbols)|
    ensures s < t < |symbols| && symbols[s] == Heads(symbols)[p] && symbols[t] == Heads(symbols)[q]
    ensures IsHead(symbols[s]) && IsHead(symbols[t])
  {
    var m := |symbols| - 1;
    var h := Heads(symbols[..m]);
    if q < |h| {
      s, t := HeadsTwo(symbols[..m], p, q);
    } else {
      HeadsAre(symbols[..m], h[p]);
      assert h[p] in h;
      s :| 0 <= s < m && symbols[..m][s] == h[p];
      t := m;
    }
  }

  lemma {:induction false} TwoHeads(symbols: seq<Symbol>, s: nat, t: nat) returns (p: nat, q: nat)
    requires s < t < |symbols| && IsHead(symbols[s]) && IsHead(symbols[t])
    ensures p < q < |Heads(symbols)| && Heads(symbols)[p] == symbols[s] && Heads(symbols)[q] == symbols[t]
  {
    var m := |symbols| - 1;
    var h := Heads(symbols[..m]);
    if t < m {
      p, q := TwoHeads(symbols[..m], s, t);
    } else {
      HeadsAre(symbols[..m], symbols[s]);
      assert symbols[..m][s] == symbols[s];
      p :| 0 <= p < |h| && h[p] == symbols[s];
      q := |h|;
    }
  }

  /** Two of the sorted starts at one offset are two symbols there. */
  lemma StartsShare(o: Object, starts: seq<Symbol>, p: nat, q: nat) returns (s: nat, t: nat)
    requires starts == Sort(Heads(o.symbols)) && p < q < |starts| && starts[p].value == starts[q].value
    ensures HeadAt(o, s) && HeadAt(o, t) && s != t && o.symbols[s].value == o.symbols[t].value == starts[p].value
  {
    var x := starts[p].value;
    CountTwo(starts, p, q, x);
    SortCount(Heads(o.symbols), x);
    var a, b := TwoCounted(Heads(o.symbols), x);
    s, t := HeadsTwo(o.symbols, a, b);
  }

  lemma HeadsShare(o: Object, starts: seq<Symbol>, s: nat, t: nat) returns (p: nat, q: nat)
    requires starts == Sort(Heads(o.symbols)) && HeadAt(o, s) && HeadAt(o, t) && s != t
      && o.symbols[s].value == o.symbols[t].value
    ensures p < q < |starts| && starts[p].value == starts[q].value == o.symbols[s].value
  {
    var x := o.symbols[s].value;
    var a, b := TwoHeads(o.symbols, if s < t then s else t, if s < t then t else s);
    CountTwo(Heads(o.symbols), a, b, x);
    SortCount(Heads(o.symbols), x);
    p, q := TwoCounted(starts, x);
  }

  // ---- which offsets the blocks cover ----

  /** Of the starts up to x, only the one a block was cut at lies in the block's reach. */
  lemma OnlyStart(starts: seq<Symbol>, size: nat, bs: seq<Block>, first: seq<nat>, k: nat, x: int, g: nat)
    requires Sorted(starts) && CutUpTo(starts, size, bs, first, |starts|) && k < |bs| && InBlock(bs[k], x)
      && g < |starts|
    ensures g != first[k] ==> starts[g].value < bs[k].start || starts[g].value > x
  {
    if g > first[k] {
      assert starts[first[k] + 1].value <= starts[g].value;
    } else if g < first[k] {
      assert CutBy(starts, bs, first, g);
    }
  }

  lemma BlockHasHead(o: Object, starts: seq<Symbol>, bs: seq<Block>, first: seq<nat>, k: nat, x: int)
    requires starts == Sort(Heads(o.symbols)) && CutUpTo(starts, |o.text|, bs, first, |starts|) && k < |bs|
      && InBlock(bs[k], x)
    requires Headed(o, bs)
    ensures OneHead(o, x)
  {
    assert HeadStands(o, bs[k].start);
    var s :| HeadAt(o, s) && o.symbols[s].value == bs[k].start;
    forall t | HeadAt(o, t) && t != s ensures o.symbols[t].value < bs[k].start || o.symbols[t].value > x {
      var g := StartOf(o, starts, t);
      OnlyStart(starts, |o.text|, bs, first, k, x, g);
      if o.symbols[t].value == bs[k].start {
        var p, q := HeadsShare(o, starts, s, t);
        OnlyStart(starts, |o.text|, bs, first, k, x, p);
        OnlyStart(starts, |o.text|, bs, first, k, x, q);
      }
    }
    assert NearestHead(o, s, x);
  }

  lemma HeadHasBlock(o: Object, starts: seq<Symbol>, bs: seq<Block>, s: int, x: int, k: nat, f: nat)
    requires starts == Sort(Heads(o.symbols)) && NearestHead(o, s, x) && k < |bs| && f < |starts|
    requires bs[k].start == o.symbols[s].value == starts[f].value && bs[k].end == NextStart(starts, f, |o.text|)
    ensures InSomeBlock(bs, x)
  {
    if f + 1 < |starts| { NextBeyond(o, starts, s, x, f); }
    assert InBlock(bs[k], x);
  }

  lemma StartOf(o: Object, starts: seq<Symbol>, s: int) returns (p: nat)
    requires starts == Sort(Heads(o.symbols)) && HeadAt(o, s)
    ensures p < |starts| && starts[p] == o.symbols[s]
  {
    SortedHeads(o, o.symbols[s]);
    assert o.symbols[s] in o.symbols;
    p :| 0 <= p < |starts| && starts[p] == o.symbols[s];
  }

  lemma BlockOf(starts: seq<Symbol>, size: nat, bs: seq<Block>, first: seq<nat>, p: nat) returns (k: nat)
    requires CutUpTo(starts, size, bs, first, |starts|) && p < |starts|
    ensures k < |bs| && first[k] < |starts| && bs[k].start == starts[p].value == starts[first[k]].value
      && bs[k].end == NextStart(starts, first[k], size)
  {
    assert CutBy(starts, bs, first, p);
    k :| 0 <= k < |bs| && bs[k].start == starts[p].value && first[k] <= p;
  }

  lemma NextBeyond(o: Object, starts: seq<Symbol>, s: int, x: int, f: nat)
    requires starts == Sort(Heads(o.symbols)) && NearestHead(o, s, x) && f + 1 < |starts|
      && starts[f].value == o.symbols[s].value
    ensures starts[f + 1].value > x
  {
    if starts[f + 1].value == starts[f].value {
      var a, b := StartsShare(o, starts, f, f + 1);
    } else {
      SortedHeads(o, starts[f + 1]);
      assert starts[f + 1] in starts;
      var t :| 0 <= t < |o.symbols| && o.symbols[t] == starts[f + 1];
      assert HeadAt(o, t);
    }
  }

  lemma CutCovers(o: Object, starts: seq<Symbol>, bs: seq<Block>, first: seq<nat>)
    requires starts == Sort(Heads(o.symbols)) && CutUpTo(starts, |o.text|, bs, first, |starts|) && Headed(o, bs)
    ensures CoverIs(o, bs)
  {
    forall x ensures InSomeBlock(bs, x) <==> OneHead(o, x) {
      if InSomeBlock(bs, x) {
        var k :| 0 <= k < |bs| && InBlock(bs[k], x);
        BlockHasHead(o, starts, bs, first, k, x);
      }
      if OneHead(o, x) {
        var s :| NearestHead(o, s, x);
        var p := StartOf(o, starts, s);
        var k := BlockOf(starts, |o.text|, bs, first, p);
        HeadHasBlock(o, starts, bs, s, x, k, first[k]);
      }
    }
  }
}
