/** What users may do with the pages of their address spaces, across the steps of the memory manager. */
module PageRights {
  import opened Words
  import opened Paging

  /** Nothing; reading; or writing too, perhaps after the page has been copied. */
  datatype Right = NoRight | ReadOnly | ReadWrite

  function RightOf(w: nat): Right {
    if !Present(w) || !UserPage(w) then NoRight else if Writable(w) || Cow(w) then ReadWrite else ReadOnly
  }

  function Through(pde: nat, pte: nat): Right { if Present(pde) && UserPage(pde) then RightOf(pte) else NoRight }

  function RightAt(m: Memory, pd: nat, di: nat, ti: nat): Right
    requires di < 1024 && ti < 1024
  {
    Through(Word(m, pd, di), Pte(m, pd, di, ti))
  }

  ghost predicate SameRights(m: Memory, m': Memory, spaces: set<nat>) {
    forall pd, di, ti {:trigger RightAt(m', pd, di, ti)} :: pd in spaces && 0 <= di < 1024 && 0 <= ti < 1024 ==>
      RightAt(m', pd, di, ti) == RightAt(m, pd, di, ti)
  }

  /** Only the right to one page may have changed. */
  ghost predicate RightsBut(m: Memory, m': Memory, spaces: set<nat>, pd: nat, di: nat, ti: nat) {
    forall pd', di', ti' {:trigger RightAt(m', pd', di', ti')} ::
      pd' in spaces && 0 <= di' < 1024 && 0 <= ti' < 1024 && (pd', di', ti') != (pd, di, ti) ==>
      RightAt(m', pd', di', ti') == RightAt(m, pd', di', ti')
  }

  /** Directory entries that have changed are open to the user. */
  ghost predicate DirsOpen(m: Memory, m': Memory, spaces: set<nat>) {
    forall pd, di {:trigger Word(m', pd, di)} :: pd in spaces && 0 <= di < 1024 ==>
      Word(m', pd, di) == Word(m, pd, di) || UserPage(Word(m', pd, di))
  }

  /** All tables of a space are open to the user. */
  ghost predicate Open(m: Memory, pd: nat) {
    forall di {:trigger Word(m, pd, di)} :: 0 <= di < 1024 && Present(Word(m, pd, di)) ==> UserPage(Word(m, pd, di))
  }

  /** The rights that flags give. */
  function Granted(flags: nat): Right {
    if !UserPage(flags) then NoRight else if Writable(flags) || Cow(flags) then ReadWrite else ReadOnly
  }

  /** What becomes of a right at a fork: whatever can be read can be written, after copying. */
  function Forked(r: Right): Right { if r == NoRight then NoRight else ReadWrite }

  /** Only the right to one page has changed, to r. */
  ghost predicate PageRight(m: Memory, m': Memory, spaces: set<nat>, pd: nat, di: nat, ti: nat, r: Right)
    requires di < 1024 && ti < 1024
  {
    && RightsBut(m, m', spaces, pd, di, ti) && DirsOpen(m, m', spaces)
    && (Open(m, pd) ==> RightAt(m', pd, di, ti) == r)
  }

  /** Only the right to one page has changed, to what a fork makes of it. */
  ghost predicate PageForked(m: Memory, m': Memory, spaces: set<nat>, pd: nat, di: nat, ti: nat)
    requires di < 1024 && ti < 1024
  {
    && RightsBut(m, m', spaces, pd, di, ti) && DirsOpen(m, m', spaces)
    && RightAt(m', pd, di, ti) == Forked(RightAt(m, pd, di, ti))
  }

  /** A space in which the user has no rights yet. */
  ghost predicate Bare(m: Memory, pd: nat) {
    && Open(m, pd)
    && forall di, ti {:trigger RightAt(m, pd, di, ti)} :: 0 <= di < 1024 && 0 <= ti < 1024 ==>
    RightAt(m, pd, di, ti) == NoRight
  }

  lemma PageRightAfter(m: Memory, m1: Memory, m2: Memory, spaces: set<nat>, pd: nat, di: nat, ti: nat, r: Right)
    requires di < 1024 && ti < 1024 && pd in spaces
    requires SameRights(m, m1, spaces) && DirsOpen(m, m1, spaces) && PageRight(m1, m2, spaces, pd, di, ti, r)
    ensures PageRight(m, m2, spaces, pd, di, ti, r)
  {
    DirsOpenTrans(m, m1, m2, spaces);
    RightsButTrans(m, m1, m2, spaces, pd, di, ti);
  }

  lemma PageRightBefore(m: Memory, m1: Memory, m2: Memory, spaces: set<nat>, pd: nat, di: nat, ti: nat, r: Right)
    requires di < 1024 && ti < 1024 && pd in spaces
    requires PageRight(m, m1, spaces, pd, di, ti, r) && SameRights(m1, m2, spaces) && DirsOpen(m1, m2, spaces)
    ensures PageRight(m, m2, spaces, pd, di, ti, r)
  {
    DirsOpenTrans(m, m1, m2, spaces);
    RightsButTrans(m, m1, m2, spaces, pd, di, ti);
  }

  lemma PageForkedBefore(m: Memory, m1: Memory, m2: Memory, spaces: set<nat>, pd: nat, di: nat, ti: nat)
    requires di < 1024 && ti < 1024 && pd in spaces
    requires PageForked(m, m1, spaces, pd, di, ti) && SameRights(m1, m2, spaces) && DirsOpen(m1, m2, spaces)
    ensures PageForked(m, m2, spaces, pd, di, ti)
  {
    DirsOpenTrans(m, m1, m2, spaces);
    RightsButTrans(m, m1, m2, spaces, pd, di, ti);
  }

  lemma OpenKept(m: Memory, m': Memory, spaces: set<nat>, pd: nat)
    requires DirsOpen(m, m', spaces) && pd in spaces && Open(m, pd)
    ensures Open(m', pd)
  {
  }

  lemma SameRightsTrans(m: Memory, m1: Memory, m2: Memory, spaces: set<nat>)
    requires SameRights(m, m1, spaces) && SameRights(m1, m2, spaces)
    ensures SameRights(m, m2, spaces)
  {
    forall pd, di, ti | pd in spaces && 0 <= di < 1024 && 0 <= ti < 1024
      ensures RightAt(m2, pd, di, ti) == RightAt(m, pd, di, ti)
    {
      assert RightAt(m1, pd, di, ti) == RightAt(m, pd, di, ti);
    }
  }

  lemma DirsOpenTrans(m: Memory, m1: Memory, m2: Memory, spaces: set<nat>)
    requires DirsOpen(m, m1, spaces) && DirsOpen(m1, m2, spaces)
    ensures DirsOpen(m, m2, spaces)
  {
    forall pd, di | pd in spaces && 0 <= di < 1024
      ensures Word(m2, pd, di) == Word(m, pd, di) || UserPage(Word(m2, pd, di))
    {
      assert Word(m1, pd, di) == Word(m, pd, di) || UserPage(Word(m1, pd, di));
    }
  }

  lemma RightsButTrans(m: Memory, m1: Memory, m2: Memory, spaces: set<nat>, pd: nat, di: nat, ti: nat)
    requires RightsBut(m, m1, spaces, pd, di, ti) && RightsBut(m1, m2, spaces, pd, di, ti)
    ensures RightsBut(m, m2, spaces, pd, di, ti)
  {
    forall pd', di', ti' | pd' in spaces && 0 <= di' < 1024 && 0 <= ti' < 1024 && (pd', di', ti') != (pd, di, ti)
      ensures RightAt(m2, pd', di', ti') == RightAt(m, pd', di', ti')
    {
      assert RightAt(m1, pd', di', ti') == RightAt(m, pd', di', ti');
    }
  }

  // ---- pages that are no tables ----

  lemma DataRight(m: Memory, m': Memory, spaces: set<nat>, uses: Uses, lo: nat, f: nat, pd: nat, di: nat, ti: nat)
    requires Tables(m, spaces, uses, {}, lo) && pd in spaces && di < 1024 && ti < 1024 && |m'| == |m|
    requires f in uses ==> forall v :: v in uses[f] ==> v.Map?
    requires forall g :: 0 <= g < |m| && g != f ==> m'[g] == m[g]
    ensures Word(m', pd, di) == Word(m, pd, di) && Pte(m', pd, di, ti) == Pte(m, pd, di, ti)
  {
    NotATable(m, spaces, uses, {}, lo, f, Map(pd, di, ti));
  }

  /** Writing a page that is no directory or table changes no right. */
  lemma DataRights(m: Memory, m': Memory, spaces: set<nat>, uses: Uses, lo: nat, f: nat)
    requires Tables(m, spaces, uses, {}, lo) && |m'| == |m|
    requires f in uses ==> forall v :: v in uses[f] ==> v.Map?
    requires forall g :: 0 <= g < |m| && g != f ==> m'[g] == m[g]
    ensures SameRights(m, m', spaces) && DirsOpen(m, m', spaces)
  {
    forall pd, di, ti | pd in spaces && 0 <= di < 1024 && 0 <= ti < 1024
      ensures RightAt(m', pd, di, ti) == RightAt(m, pd, di, ti)
    {
      DataRight(m, m', spaces, uses, lo, f, pd, di, ti);
    }
    forall pd, di | pd in spaces && 0 <= di < 1024 ensures Word(m', pd, di) == Word(m, pd, di) {
      DataRight(m, m', spaces, uses, lo, f, pd, di, 0);
    }
  }

  // ---- entries of tables ----

  lemma DirWritten(m: Memory, m': Memory, spaces: set<nat>, uses: Uses, lo: nat, pd: nat, di: nat, ti: nat, w: u32,
                   pd': nat, di': nat)
    requires Tables(m, spaces, uses, {}, lo) && pd in spaces && di < 1024 && ti < 1024 && Table(m, pd, di) >= 0
    requires WordSet(m, m', Table(m, pd, di), ti, w) && pd' in spaces && di' < 1024
    ensures Word(m', pd', di') == Word(m, pd', di')
  {
    TableElsewhere(m, spaces, uses, lo, pd', pd, di);
    WordAfter(m, m', Table(m, pd, di), ti, w, pd', di');
  }

  /** Writing an entry of a page table changes the right to that page only. */
  lemma EntryRights(m: Memory, m': Memory, spaces: set<nat>, uses: Uses, lo: nat, pd: nat, di: nat, ti: nat, w: u32)
    requires Tables(m, spaces, uses, {}, lo) && pd in spaces && di < 1024 && ti < 1024 && Table(m, pd, di) >= 0
    requires WordSet(m, m', Table(m, pd, di), ti, w)
    ensures RightsBut(m, m', spaces, pd, di, ti) && RightAt(m', pd, di, ti) == Through(Word(m, pd, di), w)
      && DirsOpen(m, m', spaces)
  {
    forall pd', di', ti' | pd' in spaces && 0 <= di' < 1024 && 0 <= ti' < 1024
      ensures (pd', di', ti') != (pd, di, ti) ==> RightAt(m', pd', di', ti') == RightAt(m, pd', di', ti')
      ensures (pd', di', ti') == (pd, di, ti) ==> RightAt(m', pd', di', ti') == Through(Word(m, pd, di), w)
    {
      DirWritten(m, m', spaces, uses, lo, pd, di, ti, w, pd', di');
      PteWritten(m, m', spaces, uses, lo, pd, di, ti, w, Map(pd', di', ti'));
    }
    forall pd', di' | pd' in spaces && 0 <= di' < 1024 ensures Word(m', pd', di') == Word(m, pd', di') {
      DirWritten(m, m', spaces, uses, lo, pd, di, ti, w, pd', di');
    }
  }

  /** Rewriting it with the same right changes none. */
  lemma EntrySameRights(m: Memory, m': Memory, spaces: set<nat>, uses: Uses, lo: nat, pd: nat, di: nat, ti: nat, w: u32)
    requires Tables(m, spaces, uses, {}, lo) && pd in spaces && di < 1024 && ti < 1024 && Table(m, pd, di) >= 0
    requires WordSet(m, m', Table(m, pd, di), ti, w) && RightOf(w) == RightOf(Pte(m, pd, di, ti))
    ensures SameRights(m, m', spaces) && DirsOpen(m, m', spaces)
  {
    EntryRights(m, m', spaces, uses, lo, pd, di, ti, w);
  }

  // ---- a new table ----

  /** A new, empty table gives no one a right. */
  lemma TableRights(m: Memory, m': Memory, spaces: set<nat>, uses: Uses, lo: nat, pd: nat, di: nat, w: u32, t: nat)
    requires Tables(m, spaces, uses, {}, lo) && pd in spaces && di < 1024 && Table(m, pd, di) == -1
    requires WordSet(m, m', pd, di, w) && FrameOf(w) == t && t !in uses && ZeroPage(m, t) && UserPage(w)
    ensures SameRights(m, m', spaces) && DirsOpen(m, m', spaces)
  {
    forall pd', di', ti' | pd' in spaces && 0 <= di' < 1024 && 0 <= ti' < 1024
      ensures RightAt(m', pd', di', ti') == RightAt(m, pd', di', ti')
    {
      TableAdded(m, m', spaces, uses, lo, pd, di, w, t, Map(pd', di', ti'));
      WordAfter(m, m', pd, di, w, pd', di');
      if (pd', di') == (pd, di) { NoTable(m, pd, di, ti'); }
    }
    forall pd', di' | pd' in spaces && 0 <= di' < 1024
      ensures Word(m', pd', di') == Word(m, pd', di') || UserPage(Word(m', pd', di'))
    {
      WordAfter(m, m', pd, di, w, pd', di');
    }
  }

  lemma NoTable(m: Memory, pd: nat, di: nat, ti: nat)
    requires di < 1024 && ti < 1024 && Table(m, pd, di) == -1
    ensures Pte(m, pd, di, ti) == 0 && RightOf(0) == NoRight
  {
  }

  lemma NewRights(m: Memory, pd: nat)
    requires ZeroPage(m, pd)
    ensures Bare(m, pd)
  {
    forall di | 0 <= di < 1024 ensures Word(m, pd, di) == 0 { ZeroWords(m, pd, di); }
  }
}
