/** What address spaces see across the steps of the memory manager. */
module PagingViews {
  import opened Bytes
  import opened Words
  import opened Paging

  /** Every live space sees what it saw. */
  ghost predicate AllSee(m: Memory, m': Memory, spaces: set<nat>) {
    forall pd :: pd in spaces ==> SameView(m, pd, m', pd)
  }

  lemma AllSeeTrans(m: Memory, m1: Memory, m2: Memory, spaces: set<nat>)
    requires AllSee(m, m1, spaces) && AllSee(m1, m2, spaces)
    ensures AllSee(m, m2, spaces)
  {
    forall pd | pd in spaces ensures SameView(m, pd, m2, pd) {
      assert SameView(m, pd, m1, pd) && SameView(m1, pd, m2, pd);
      forall di, ti, off | 0 <= di < 1024 && 0 <= ti < 1024 && 0 <= off < 4096
        ensures Sees(m2, pd, di, ti, off) == Sees(m, pd, di, ti, off)
      {
        assert Sees(m1, pd, di, ti, off) == Sees(m, pd, di, ti, off);
      }
    }
  }

  /** A mapped page is no directory and no table. */
  lemma MappedIsData(m: Memory, spaces: set<nat>, uses: Uses, lo: nat, u: Use, v: Use)
    requires Tables(m, spaces, uses, {}, lo) && ValidUse(u) && ValidUse(v) && u.pd in spaces && v.pd in spaces
    requires u.Map? && !v.Map? && Frame(m, u) >= 0 && Frame(m, v) >= 0
    ensures Frame(m, u) != Frame(m, v)
  {
    UseRecorded(m, spaces, uses, {}, u);
    UseRecorded(m, spaces, uses, {}, v);
  }

  /** Pages that no one maps may change. */
  lemma UnmappedChange(m: Memory, m': Memory, spaces: set<nat>, uses: Uses, lo: nat, f: nat)
    requires Tables(m, spaces, uses, {}, lo) && |m'| == |m| && f !in uses
    requires forall g :: 0 <= g < |m| && g != f ==> m'[g] == m[g]
    ensures AllSee(m, m', spaces)
  {
    forall pd, di, ti, off | pd in spaces && 0 <= di < 1024 && 0 <= ti < 1024 && 0 <= off < 4096
      ensures Sees(m', pd, di, ti, off) == Sees(m, pd, di, ti, off)
    {
      DataFrames(m, m', spaces, uses, lo, f, Map(pd, di, ti));
      if Frame(m, Map(pd, di, ti)) >= 0 { UseRecorded(m, spaces, uses, {}, Map(pd, di, ti)); }
    }
  }

  /** So may the page of a directory or table, if the entries of this page stay. */
  lemma TableChange(m: Memory, m': Memory, spaces: set<nat>, uses: Uses, lo: nat, v: Use, u: Use, off: nat)
    requires Tables(m, spaces, uses, {}, lo) && ValidUse(v) && !v.Map? && v.pd in spaces && Frame(m, v) >= 0
      && |m'| == |m|
    requires forall g :: 0 <= g < |m| && g != Frame(m, v) ==> m'[g] == m[g]
    requires ValidUse(u) && u.Map? && u.pd in spaces && off < 4096
    requires Pte(m', u.pd, u.di, u.ti) == Pte(m, u.pd, u.di, u.ti)
    ensures Sees(m', u.pd, u.di, u.ti, off) == Sees(m, u.pd, u.di, u.ti, off)
  {
    if Frame(m, u) >= 0 { MappedIsData(m, spaces, uses, lo, u, v); }
  }

  /** A new table maps nothing. */
  lemma TableViews(m: Memory, m': Memory, spaces: set<nat>, uses: Uses, lo: nat, pd: nat, di: nat, w: u32, t: nat)
    requires Tables(m, spaces, uses, {}, lo) && pd in spaces && di < 1024 && Table(m, pd, di) == -1
    requires WordSet(m, m', pd, di, w) && FrameOf(w) == t && t !in uses && ZeroPage(m, t)
    ensures AllSee(m, m', spaces)
  {
    forall pd', di', ti, off | pd' in spaces && 0 <= di' < 1024 && 0 <= ti < 1024 && 0 <= off < 4096
      ensures Sees(m', pd', di', ti, off) == Sees(m, pd', di', ti, off)
    {
      TableAdded(m, m', spaces, uses, lo, pd, di, w, t, Map(pd', di', ti));
      assert Frame(m, Dir(pd)) == pd;
      TableChange(m, m', spaces, uses, lo, Dir(pd), Map(pd', di', ti), off);
    }
  }

  /** After one entry is written, every other page of every space is as it was, and this one shows the
      frame the entry names. */
  lemma EntryViews(m: Memory, m': Memory, spaces: set<nat>, uses: Uses, lo: nat, pd: nat, di: nat, ti: nat, w: u32,
                   pd': nat, di': nat, ti': nat, off: nat)
    requires Tables(m, spaces, uses, {}, lo) && pd in spaces && di < 1024 && ti < 1024 && Table(m, pd, di) >= 0
    requires WordSet(m, m', Table(m, pd, di), ti, w) && pd' in spaces && di' < 1024 && ti' < 1024 && off < 4096
    ensures Map(pd', di', ti') != Map(pd, di, ti) ==> Sees(m', pd', di', ti', off) == Sees(m, pd', di', ti', off)
    ensures var f := FrameOf(w);
      f != Table(m, pd, di) && 0 <= f < |m| && |m[f]| == 4096 ==> Sees(m', pd, di, ti, off) == m[f][off]
  {
    PteWritten(m, m', spaces, uses, lo, pd, di, ti, w, Map(pd', di', ti'));
    PteWritten(m, m', spaces, uses, lo, pd, di, ti, w, Map(pd, di, ti));
    if Map(pd', di', ti') != Map(pd, di, ti) {
      assert Frame(m, Tab(pd, di)) == Table(m, pd, di);
      TableChange(m, m', spaces, uses, lo, Tab(pd, di), Map(pd', di', ti'), off);
    }
  }

  /** An entry rewritten to name a page with the same bytes: no one sees a change. */
  lemma SameEntryViews(m: Memory, m': Memory, spaces: set<nat>, uses: Uses, lo: nat, pd: nat, di: nat, ti: nat, w: u32,
                       f: nat)
    requires Tables(m, spaces, uses, {}, lo) && pd in spaces && di < 1024 && ti < 1024 && Table(m, pd, di) >= 0
    requires WordSet(m, m', Table(m, pd, di), ti, w)
    requires FrameOf(Pte(m, pd, di, ti)) == f && f in uses && 0 <= FrameOf(w) < |m| && m[FrameOf(w)] == m[f]
      && FrameOf(w) != Table(m, pd, di)
    ensures AllSee(m, m', spaces)
  {
    forall pd', di', ti', off | pd' in spaces && 0 <= di' < 1024 && 0 <= ti' < 1024 && 0 <= off < 4096
      ensures Sees(m', pd', di', ti', off) == Sees(m, pd', di', ti', off)
    {
      EntryViews(m, m', spaces, uses, lo, pd, di, ti, w, pd', di', ti', off);
    }
  }

  ghost predicate ByteSet(m: Memory, m': Memory, f: int, at: nat, b: u8) {
    && |m'| == |m| && 0 <= f < |m| && |m'[f]| == |m[f]| == 4096 && at < 4096 && m'[f][at] == b
    && (forall i :: 0 <= i < 4096 && i != at ==> m'[f][i] == m[f][i])
    && (forall g :: 0 <= g < |m| && g != f ==> m'[g] == m[g])
  }

  /** A byte written to a page only one entry names: only that page of that space changes, in that byte. */
  lemma ByteViews(m: Memory, m': Memory, spaces: set<nat>, uses: Uses, lo: nat, pd: nat, di: nat, ti: nat, at: nat,
                  b: u8)
    requires Tables(m, spaces, uses, {}, lo) && pd in spaces && di < 1024 && ti < 1024 && at < 4096
    requires var f := FrameOf(Pte(m, pd, di, ti));
      f >= 0 && f in uses && uses[f] == {Map(pd, di, ti)} && ByteSet(m, m', f, at, b)
    ensures Tables(m', spaces, uses, {}, lo)
    ensures forall pd', di', ti', off :: pd' in spaces && 0 <= di' < 1024 && 0 <= ti' < 1024 && 0 <= off < 4096 ==>
      Sees(m', pd', di', ti', off) == if (pd', di', ti', off) == (pd, di, ti, at) then b
        else Sees(m, pd', di', ti', off)
  {
    var f := FrameOf(Pte(m, pd, di, ti));
    forall u | ValidUse(u) && u.pd in spaces
      ensures Frame(m', u) == Frame(m, u) && (u.Map? ==> Pte(m', u.pd, u.di, u.ti) == Pte(m, u.pd, u.di, u.ti))
    {
      DataFrames(m, m', spaces, uses, lo, f, u);
    }
    SameFrames(m, m', spaces, uses, {}, lo);
    forall pd', di', ti', off | pd' in spaces && 0 <= di' < 1024 && 0 <= ti' < 1024 && 0 <= off < 4096
      ensures Sees(m', pd', di', ti', off) == if (pd', di', ti', off) == (pd, di, ti, at) then b
        else Sees(m, pd', di', ti', off)
    {
      var u := Map(pd', di', ti');
      assert Frame(m', u) == Frame(m, u);
      if Frame(m, u) == f { UseRecorded(m, spaces, uses, {}, u); }
    }
  }

  /** The page only one entry names is rewritten: that page of that space shows the new bytes. */
  lemma PageViews(m: Memory, m': Memory, spaces: set<nat>, uses: Uses, lo: nat, pd: nat, di: nat, ti: nat, f: nat)
    requires Tables(m, spaces, uses, {}, lo) && pd in spaces && di < 1024 && ti < 1024
      && FrameOf(Pte(m, pd, di, ti)) == f
    requires f in uses && uses[f] == {Map(pd, di, ti)} && f < |m| && |m'| == |m| && |m'[f]| == 4096
    requires forall g :: 0 <= g < |m| && g != f ==> m'[g] == m[g]
    ensures Tables(m', spaces, uses, {}, lo)
    ensures forall pd', di', ti', off :: pd' in spaces && 0 <= di' < 1024 && 0 <= ti' < 1024 && 0 <= off < 4096 ==>
      Sees(m', pd', di', ti', off) == if (pd', di', ti') == (pd, di, ti) then m'[f][off]
        else Sees(m, pd', di', ti', off)
  {
    forall u | ValidUse(u) && u.pd in spaces
      ensures Frame(m', u) == Frame(m, u) && (u.Map? ==> Pte(m', u.pd, u.di, u.ti) == Pte(m, u.pd, u.di, u.ti))
    {
      DataFrames(m, m', spaces, uses, lo, f, u);
    }
    SameFrames(m, m', spaces, uses, {}, lo);
    forall pd', di', ti', off | pd' in spaces && 0 <= di' < 1024 && 0 <= ti' < 1024 && 0 <= off < 4096
      ensures Sees(m', pd', di', ti', off) == if (pd', di', ti') == (pd, di, ti) then m'[f][off]
        else Sees(m, pd', di', ti', off)
    {
      var u := Map(pd', di', ti');
      assert Frame(m', u) == Frame(m, u);
      if Frame(m, u) == f { UseRecorded(m, spaces, uses, {}, u); }
    }
  }
}
