/** Symbol resolution: which objects a link takes in, explicit ones first and then archive members on demand. */
module Resolver {
  import opened Bytes
  import opened ObjectFormat

  datatype Failure = Duplicate(name: Name) | BadMember | Unresolved(names: set<Name>)
  datatype Outcome = Loaded(objects: seq<Object>) | Failed(why: Failure)

  type Archive = seq<seq<u8>>

  predicate Exported(s: Symbol) { s.global && s.section != Undef }

  /** The names an object exports, in symbol order. */
  function Provided(symbols: seq<Symbol>): seq<Name> {
    if symbols == [] then []
    else
      Provided(symbols[..|symbols| - 1])
      + (if Exported(symbols[|symbols| - 1]) then [symbols[|symbols| - 1].name] else [])
  }

  /** The names an object refers to and does not define. */
  function Required(symbols: seq<Symbol>): seq<Name> {
    if symbols == [] then []
    else
      Required(symbols[..|symbols| - 1])
      + (if symbols[|symbols| - 1].section == Undef then [symbols[|symbols| - 1].name] else [])
  }

  // ---- what the names mean ----

  predicate ExportsAt(o: Object, k: int, n: Name) {
    0 <= k < |o.symbols| && Exported(o.symbols[k]) && o.symbols[k].name == n
  }
  predicate RefersAt(o: Object, k: int, n: Name) {
    0 <= k < |o.symbols| && o.symbols[k].section == Undef && o.symbols[k].name == n
  }

  ghost predicate Defines(o: Object, n: Name) { exists k :: ExportsAt(o, k, n) }
  ghost predicate Refers(o: Object, n: Name) { exists k :: RefersAt(o, k, n) }

  ghost predicate DefinedBy(objs: seq<Object>, n: Name) { exists i :: 0 <= i < |objs| && Defines(objs[i], n) }
  ghost predicate ReferredBy(objs: seq<Object>, n: Name) { exists i :: 0 <= i < |objs| && Refers(objs[i], n) }

  /** Referred to by the objects, and defined by none of them. */
  ghost predicate Wanting(objs: seq<Object>, n: Name) { ReferredBy(objs, n) && !DefinedBy(objs, n) }

  /** Symbol k of object i exports the name. */
  predicate Definer(objs: seq<Object>, i: int, k: int, n: Name) { 0 <= i < |objs| && ExportsAt(objs[i], k, n) }

  /** No name is exported twice. */
  ghost predicate Unique(objs: seq<Object>) {
    forall i, k, j, l, n :: Definer(objs, i, k, n) && Definer(objs, j, l, n) ==> i == j && k == l
  }

  /** Every undefined symbol has a definer, and no name has two. */
  ghost predicate Closed(objs: seq<Object>) {
    Unique(objs) && forall n :: ReferredBy(objs, n) ==> DefinedBy(objs, n)
  }

  lemma {:induction false} ProvidedIs(symbols: seq<Symbol>, n: Name)
    ensures n in Provided(symbols) <==> exists k :: 0 <= k < |symbols| && Exported(symbols[k]) && symbols[k].name == n
  {
    if symbols != [] {
      var m := |symbols| - 1;
      ProvidedIs(symbols[..m], n);
      if n in Provided(symbols[..m]) {
        var k :| 0 <= k < m && Exported(symbols[..m][k]) && symbols[..m][k].name == n;
        assert Exported(symbols[k]);
      }
      if k :| 0 <= k < |symbols| && Exported(symbols[k]) && symbols[k].name == n {
        if k < m { assert Exported(symbols[..m][k]); }
      }
    }
  }

  lemma {:induction false} RequiredIs(symbols: seq<Symbol>, n: Name)
    ensures n in Required(symbols) <==>
      exists k :: 0 <= k < |symbols| && symbols[k].section == Undef && symbols[k].name == n
  {
    if symbols != [] {
      var m := |symbols| - 1;
      RequiredIs(symbols[..m], n);
      if n in Required(symbols[..m]) {
        var k :| 0 <= k < m && symbols[..m][k].section == Undef && symbols[..m][k].name == n;
        assert symbols[k].section == Undef;
      }
      if k :| 0 <= k < |symbols| && symbols[k].section == Undef && symbols[k].name == n {
        if k < m { assert symbols[..m][k].section == Undef; }
      }
    }
  }

  lemma DefinesIs(o: Object, n: Name)
    ensures n in Provided(o.symbols) <==> Defines(o, n)
  {
    ProvidedIs(o.symbols, n);
    if Defines(o, n) {
      var k :| ExportsAt(o, k, n);
      assert Exported(o.symbols[k]);
    }
    if k :| 0 <= k < |o.symbols| && Exported(o.symbols[k]) && o.symbols[k].name == n { assert ExportsAt(o, k, n); }
  }

  lemma RefersIs(o: Object, n: Name)
    ensures n in Required(o.symbols) <==> Refers(o, n)
  {
    RequiredIs(o.symbols, n);
    if Refers(o, n) {
      var k :| RefersAt(o, k, n);
      assert o.symbols[k].section == Undef;
    }
    if k :| 0 <= k < |o.symbols| && o.symbols[k].section == Undef && o.symbols[k].name == n {
      assert RefersAt(o, k, n);
    }
  }

  predicate NoRepeats(names: seq<Name>) { forall i, j :: 0 <= i < j < |names| ==> names[i] != names[j] }

  /** An object's export list repeats nothing when no two of its symbols export one name. */
  lemma {:induction false} RepeatsIs(symbols: seq<Symbol>)
    ensures NoRepeats(Provided(symbols)) <==> DistinctExports(symbols)
  {
    if symbols != [] {
      var m := |symbols| - 1;
      var p := Provided(symbols[..m]);
      RepeatsIs(symbols[..m]);
      if NoRepeats(Provided(symbols)) {
        assert forall i :: 0 <= i < |p| ==> Provided(symbols)[i] == p[i];
        assert NoRepeats(p);
        forall k, l | 0 <= k < l < |symbols| && Exported(symbols[k]) && Exported(symbols[l])
          ensures symbols[k].name != symbols[l].name
        {
          assert symbols[..m][k] == symbols[k];
          if l < m {
            assert symbols[..m][l] == symbols[l];
          } else {
            ProvidedIs(symbols[..m], symbols[k].name);
            var x :| 0 <= x < |p| && p[x] == symbols[k].name;
            assert Provided(symbols)[x] == p[x] && Provided(symbols)[|p|] == symbols[m].name;
          }
        }
      }
      if DistinctExports(symbols) {
        assert DistinctExports(symbols[..m]);
        ProvidedIs(symbols[..m], symbols[m].name);
        assert Exported(symbols[m]) ==> symbols[m].name !in p;
      }
    }
  }

  predicate DistinctExports(symbols: seq<Symbol>) {
    forall k, l :: 0 <= k < l < |symbols| && Exported(symbols[k]) && Exported(symbols[l]) ==>
      symbols[k].name != symbols[l].name
  }

  // ---- one more object ----

  lemma DefinedMore(objs: seq<Object>, o: Object, n: Name)
    ensures DefinedBy(objs + [o], n) <==> DefinedBy(objs, n) || Defines(o, n)
    ensures ReferredBy(objs + [o], n) <==> ReferredBy(objs, n) || Refers(o, n)
  {
    var more := objs + [o];
    if i :| 0 <= i < |more| && Defines(more[i], n) { assert i < |objs| ==> more[i] == objs[i]; }
    if i :| 0 <= i < |objs| && Defines(objs[i], n) { assert more[i] == objs[i]; }
    if i :| 0 <= i < |more| && Refers(more[i], n) { assert i < |objs| ==> more[i] == objs[i]; }
    if i :| 0 <= i < |objs| && Refers(objs[i], n) { assert more[i] == objs[i]; }
    assert more[|objs|] == o;
  }

  /** No export of the new object is already there, and it exports nothing twice: uniqueness stays. */
  lemma UniqueMore(objs: seq<Object>, o: Object)
    requires Unique(objs) && DistinctExports(o.symbols) && forall n :: Defines(o, n) ==> !DefinedBy(objs, n)
    ensures Unique(objs + [o])
  {
    var more := objs + [o];
    forall i, k, j, l, n | Definer(more, i, k, n) && Definer(more, j, l, n) ensures i == j && k == l {
      if i < |objs| { assert Definer(objs, i, k, n) && Defines(objs[i], n); } else { assert Defines(o, n); }
      if j < |objs| { assert Definer(objs, j, l, n) && Defines(objs[j], n); } else { assert Defines(o, n); }
    }
  }

  /** Two symbols of the objects export the name. */
  ghost predicate Twice(objs: seq<Object>, n: Name) {
    exists i, k, j, l :: Definer(objs, i, k, n) && Definer(objs, j, l, n) && (i != j || k != l)
  }

  lemma TwiceLonger(objs: seq<Object>, i: nat, n: Name)
    requires i <= |objs| && Twice(objs[..i], n)
    ensures Twice(objs, n)
  {
    var a, k, b, l :| Definer(objs[..i], a, k, n) && Definer(objs[..i], b, l, n) && (a != b || k != l);
    assert Definer(objs, a, k, n) && Definer(objs, b, l, n);
  }

  lemma OnceEach(objs: seq<Object>)
    requires Unique(objs)
    ensures !exists n :: Twice(objs, n)
  {
  }

  lemma TwiceAcross(objs: seq<Object>, o: Object, n: Name)
    requires DefinedBy(objs, n) && Defines(o, n)
    ensures Twice(objs + [o], n)
  {
    var i :| 0 <= i < |objs| && Defines(objs[i], n);
    var k :| ExportsAt(objs[i], k, n);
    var l :| ExportsAt(o, l, n);
    var more := objs + [o];
    assert Definer(more, i, k, n) && Definer(more, |objs|, l, n);
  }

  lemma TwiceInside(objs: seq<Object>, o: Object, p: int, q: int, n: Name)
    requires 0 <= p < q < |Provided(o.symbols)| && Provided(o.symbols)[p] == n == Provided(o.symbols)[q]
    ensures Twice(objs + [o], n)
  {
    var k, l := RepeatAt(o.symbols, p, q);
    var more := objs + [o];
    assert Definer(more, |objs|, k, n) && Definer(more, |objs|, l, n);
  }

  lemma {:induction false} RepeatAt(symbols: seq<Symbol>, p: int, q: int) returns (k: int, l: int)
    requires 0 <= p < q < |Provided(symbols)| && Provided(symbols)[p] == Provided(symbols)[q]
    ensures 0 <= k < l < |symbols| && Exported(symbols[k]) && Exported(symbols[l])
      && symbols[k].name == symbols[l].name == Provided(symbols)[p]
  {
    var m := |symbols| - 1;
    var before := Provided(symbols[..m]);
    if q < |before| {
      k, l := RepeatAt(symbols[..m], p, q);
    } else {
      var n := before[p];
      assert n in before;
      ProvidedIs(symbols[..m], n);
      k :| 0 <= k < m && Exported(symbols[..m][k]) && symbols[..m][k].name == n;
      l := m;
    }
  }

  class Resolver {
    var loaded: seq<Object>
    var defined: map<Name, Object>
    var needed: set<Name>

    /** What is needed is exactly what the loaded objects refer to and do not define. */
    ghost predicate Valid()
      reads this
    {
      && Unique(loaded)
      && (forall n :: n in defined <==> DefinedBy(loaded, n))
      && (forall n :: n in needed <==> Wanting(loaded, n))
    }

    constructor ()
      ensures Valid() && loaded == []
    {
      loaded, defined, needed := [], map[], {};
    }

    /** Takes an object in; refused exactly when one of its exports is there already. */
    method Admit(o: Object) returns (clash: set<Name>)
      requires Valid()
      modifies this
      ensures clash == {} <==> DistinctExports(o.symbols) && forall n :: Defines(o, n) ==> !DefinedBy(old(loaded), n)
      ensures clash == {} ==> Valid() && loaded == old(loaded) + [o]
      ensures clash != {} ==> loaded == old(loaded)
      ensures forall n :: n in clash ==> Twice(old(loaded) + [o], n)
    {
      var names := Provided(o.symbols);
      RepeatsIs(o.symbols);
      forall n ensures n in names <==> Defines(o, n) { DefinesIs(o, n); }
      var i := 0;
      while i < |names|
        invariant 0 <= i <= |names| && loaded == old(loaded)
        invariant forall n :: n in defined <==> DefinedBy(loaded, n) || n in names[..i]
        invariant forall n :: n in needed <==> Wanting(loaded, n) && n !in names[..i]
        invariant NoRepeats(names[..i]) && forall n :: n in names[..i] ==> !DefinedBy(loaded, n)
      {
        if names[i] in defined {
          Clashing(loaded, o, names, i);
          return {names[i]};
        }
        defined := defined[names[i] := o];
        needed := needed - {names[i]};
        assert names[..i + 1] == names[..i] + [names[i]];
        i := i + 1;
      }
      assert names[..i] == names;
      NeedMore(o);
      Admitted(old(loaded), o);
      loaded := loaded + [o];
      clash := {};
    }

    method NeedMore(o: Object)
      requires forall n :: n in defined <==> DefinedBy(loaded, n) || Defines(o, n)
      requires forall n :: n in needed <==> Wanting(loaded, n) && !Defines(o, n)
      modifies `needed
      ensures forall n :: n in needed <==> ReferredBy(loaded + [o], n) && !DefinedBy(loaded + [o], n)
    {
      var wants := Required(o.symbols);
      var i := 0;
      while i < |wants|
        invariant 0 <= i <= |wants|
        invariant forall n :: n in needed <==>
          (ReferredBy(loaded, n) || n in wants[..i]) && !DefinedBy(loaded, n) && !Defines(o, n)
      {
        if wants[i] !in defined {
          needed := needed + {wants[i]};
        }
        assert wants[..i + 1] == wants[..i] + [wants[i]];
        i := i + 1;
      }
      assert wants[..i] == wants;
      forall n ensures n in needed <==> ReferredBy(loaded + [o], n) && !DefinedBy(loaded + [o], n) {
        DefinedMore(loaded, o, n);
        RefersIs(o, n);
      }
    }
  }

  lemma Clashing(objs: seq<Object>, o: Object, names: seq<Name>, i: int)
    requires 0 <= i < |names| && names == Provided(o.symbols) && (DefinedBy(objs, names[i]) || names[i] in names[..i])
    ensures Twice(objs + [o], names[i])
    ensures !(NoRepeats(names) && forall n :: Defines(o, n) ==> !DefinedBy(objs, n))
  {
    DefinesIs(o, names[i]);
    if DefinedBy(objs, names[i]) {
      TwiceAcross(objs, o, names[i]);
    } else {
      var p :| 0 <= p < i && names[..i][p] == names[i];
      TwiceInside(objs, o, p, i, names[i]);
    }
  }

  lemma Admitted(objs: seq<Object>, o: Object)
    requires Unique(objs) && DistinctExports(o.symbols) && forall n :: Defines(o, n) ==> !DefinedBy(objs, n)
    ensures Unique(objs + [o]) && forall n :: DefinedBy(objs + [o], n) <==> DefinedBy(objs, n) || Defines(o, n)
  {
    UniqueMore(objs, o);
    forall n ensures DefinedBy(objs + [o], n) <==> DefinedBy(objs, n) || Defines(o, n) { DefinedMore(objs, o, n); }
  }

  // ---- archives ----

  predicate InArchives(archives: seq<Archive>, a: int, m: int) { 0 <= a < |archives| && 0 <= m < |archives[a]| }

  ghost predicate MemberAt(archives: seq<Archive>, a: int, m: int, o: Object) {
    InArchives(archives, a, m) && Meaning(archives[a][m]) == Ok(o)
  }

  ghost predicate Member(archives: seq<Archive>, o: Object) { exists a, m :: MemberAt(archives, a, m, o) }

  /** The object defines a name that the others refer to and lack. */
  ghost predicate Supplies(objs: seq<Object>, o: Object) { exists n :: Defines(o, n) && Wanting(objs, n) }

  /** Past the first ones, each object is an archive member that supplied a name wanting at the time. */
  ghost predicate PulledInNeed(objs: seq<Object>, first: nat, archives: seq<Archive>) {
    forall j {:trigger objs[j]} :: first <= j < |objs| ==> Member(archives, objs[j]) && Supplies(objs[..j], objs[j])
  }

  lemma PulledMore(objs: seq<Object>, o: Object, first: nat, archives: seq<Archive>)
    requires PulledInNeed(objs, first, archives) && Member(archives, o) && Supplies(objs, o)
    ensures PulledInNeed(objs + [o], first, archives)
  {
    var more := objs + [o];
    forall j | first <= j < |more| ensures Member(archives, more[j]) && Supplies(more[..j], more[j]) {
      if j < |objs| { assert more[..j] == objs[..j] && more[j] == objs[j]; } else { assert more[..j] == objs; }
    }
  }

  /** A member has no more to give: it parses, and what it defines is not wanting. */
  ghost predicate Spent(archives: seq<Archive>, a: int, m: int, objs: seq<Object>) {
    InArchives(archives, a, m) && Meaning(archives[a][m]).Ok? && !Supplies(objs, Meaning(archives[a][m]).obj)
  }

  lemma LoadedSpent(archives: seq<Archive>, a: int, m: int, o: Object, objs: seq<Object>)
    requires MemberAt(archives, a, m, o) && o in objs
    ensures Spent(archives, a, m, objs)
  {
    var i :| 0 <= i < |objs| && objs[i] == o;
    forall n | Defines(o, n) ensures DefinedBy(objs, n) { assert Defines(objs[i], n); }
  }

  datatype Step = Skipped | Pulled | Stopped(why: Failure)

  /** Why a resolution that has loaded some objects may stop. */
  ghost predicate Reason(why: Failure, objs: seq<Object>, archives: seq<Archive>) {
    match why
    case Duplicate(n) => exists o :: Member(archives, o) && Twice(objs + [o], n)
    case BadMember => exists a, m :: InArchives(archives, a, m) && Meaning(archives[a][m]) == Bad
    case Unresolved(names) =>
      && names != {} && (forall n :: n in names <==> Wanting(objs, n))
      && (forall a, m :: InArchives(archives, a, m) ==> Spent(archives, a, m, objs))
  }

  /** The objects are as resolution left them, and it had that reason to stop. */
  ghost predicate Stuck(why: Failure, objs: seq<Object>, first: nat, archives: seq<Archive>) {
    PulledInNeed(objs, first, archives) && Reason(why, objs, archives)
  }

  /** Member numbers already taken. */
  type Key = (nat, nat)

  // ---- the order in which members are looked at ----

  /** Objects and members taken so far, or the member that could not be taken. */
  datatype Pulling = Pulling(objs: seq<Object>, pulled: set<Key>) | Halted(objs: seq<Object>, a: nat, m: nat)

  /** None of the object's exports is there already, and it exports nothing twice. */
  ghost predicate Fresh(objs: seq<Object>, o: Object) {
    DistinctExports(o.symbols) && forall n :: Defines(o, n) ==> !DefinedBy(objs, n)
  }

  /** One member is looked at. */
  ghost function Offered(archives: seq<Archive>, st: Pulling, a: nat, m: nat): Pulling
    requires InArchives(archives, a, m)
  {
    if st.Halted? || (a, m) in st.pulled then st else
    match Meaning(archives[a][m])
    case Bad => Halted(st.objs, a, m)
    case Ok(o) =>
      if !Supplies(st.objs, o) then st
      else if !Fresh(st.objs, o) then Halted(st.objs, a, m)
      else Pulling(st.objs + [o], st.pulled + {(a, m)})
  }

  /** The members of archive a from m on, in order. */
  ghost function OfferedFrom(archives: seq<Archive>, st: Pulling, a: nat, m: nat): Pulling
    requires a < |archives|
    decreases |archives[a]| - m
  {
    if m >= |archives[a]| then st else OfferedFrom(archives, Offered(archives, st, a, m), a, m + 1)
  }

  /** The archives from a on, in order. */
  ghost function Passed(archives: seq<Archive>, st: Pulling, a: nat): Pulling
    decreases |archives| - a
  {
    if a >= |archives| then st else Passed(archives, OfferedFrom(archives, st, a, 0), a + 1)
  }

  lemma {:induction false} HaltedFrom(archives: seq<Archive>, st: Pulling, a: nat, m: nat)
    requires st.Halted? && a < |archives|
    ensures OfferedFrom(archives, st, a, m) == st
    decreases |archives[a]| - m
  {
    if m < |archives[a]| { HaltedFrom(archives, st, a, m + 1); }
  }

  lemma {:induction false} HaltedPass(archives: seq<Archive>, st: Pulling, a: nat)
    requires st.Halted?
    ensures Passed(archives, st, a) == st
    decreases |archives| - a
  {
    if a < |archives| { HaltedFrom(archives, st, a, 0); HaltedPass(archives, st, a + 1); }
  }

  lemma HaltedOver(archives: seq<Archive>, st: Pulling, a: nat)
    requires a < |archives| && OfferedFrom(archives, st, a, 0).Halted?
    ensures Passed(archives, st, a) == OfferedFrom(archives, st, a, 0)
  {
    HaltedPass(archives, OfferedFrom(archives, st, a, 0), a + 1);
  }

  ghost predicate SomeWanting(objs: seq<Object>) { exists n :: Wanting(objs, n) }

  /** Passes over all archives, each for something wanting and each bringing something. */
  ghost predicate Rounds(archives: seq<Archive>, first: seq<Object>, rounds: seq<Pulling>) {
    && rounds != [] && rounds[0] == Pulling(first, {}) && (forall i :: 0 <= i < |rounds| ==> rounds[i].Pulling?)
    && forall i :: 0 <= i < |rounds| - 1 ==> Follows(archives, rounds[i], rounds[i + 1])
  }

  ghost predicate Follows(archives: seq<Archive>, st: Pulling, st': Pulling) {
    SomeWanting(st.objs) && st' == Passed(archives, st, 0) && st' != st
  }

  /** What comes after the last of the rounds: nothing is wanting; a pass brings nothing; or it meets a member
      that is no object, or whose exports clash. */
  ghost predicate Ends(archives: seq<Archive>, last: Pulling, r: Outcome) {
    && last.Pulling?
    && if !SomeWanting(last.objs) then r == Loaded(last.objs)
    else
      var st := Passed(archives, last, 0);
      && r.Failed? && (st.Halted? || st == last)
      && if st.Pulling? then r.why.Unresolved? && forall n :: n in r.why.names <==> Wanting(last.objs, n)
      else Halts(archives, st, r.why)
  }

  ghost predicate Ended(archives: seq<Archive>, first: seq<Object>, rounds: seq<Pulling>, r: Outcome) {
    Rounds(archives, first, rounds) && Ends(archives, rounds[|rounds| - 1], r)
  }

  /** What resolution comes to: members are looked at archive by archive and in order, pass after pass. */
  ghost predicate Resolution(objects: seq<Object>, archives: seq<Archive>, r: Outcome) {
    if exists n :: Twice(objects, n) then r.Failed? && r.why.Duplicate? && Twice(objects, r.why.name)
    else exists rounds :: Ended(archives, objects, rounds, r)
  }

  /** It comes to one thing: the objects loaded and their order, or the kind of failure, are determined. */
  lemma ResolutionUnique(objects: seq<Object>, archives: seq<Archive>, r: Outcome, r': Outcome)
    requires Resolution(objects, archives, r) && Resolution(objects, archives, r')
    ensures r.Loaded? ==> r' == r
    ensures r.Failed? ==>
      r'.Failed? && (r.why.Duplicate? <==> r'.why.Duplicate?) && (r.why.BadMember? <==> r'.why.BadMember?)
    ensures r.Failed? && r.why.Unresolved? ==> r' == r
  {
    if !exists n :: Twice(objects, n) {
      var rounds :| Ended(archives, objects, rounds, r);
      var rounds' :| Ended(archives, objects, rounds', r');
      EitherRounds(archives, objects, rounds, r, rounds', r');
      SameEnd(archives, rounds[|rounds| - 1], r, r');
    }
  }

  lemma EitherRounds(archives: seq<Archive>, first: seq<Object>, rounds: seq<Pulling>, r: Outcome,
                     rounds': seq<Pulling>, r': Outcome)
    requires Ended(archives, first, rounds, r) && Ended(archives, first, rounds', r')
    ensures rounds == rounds'
  {
    if |rounds| <= |rounds'| { SameRounds(archives, first, rounds, r, rounds', r'); } else {
      SameRounds(archives, first, rounds', r', rounds, r);
    }
  }

  lemma SameEnd(archives: seq<Archive>, last: Pulling, r: Outcome, r': Outcome)
    requires Ends(archives, last, r) && Ends(archives, last, r')
    ensures r.Loaded? ==> r' == r
    ensures r.Failed? ==>
      r'.Failed? && (r.why.Duplicate? <==> r'.why.Duplicate?) && (r.why.BadMember? <==> r'.why.BadMember?)
    ensures r.Failed? && r.why.Unresolved? ==> r' == r
  {
    if r.Failed? && r.why.Unresolved? { assert r.why.names == r'.why.names; }
  }

  lemma SameRounds(archives: seq<Archive>, first: seq<Object>, rounds: seq<Pulling>, r: Outcome, rounds': seq<Pulling>,
                   r': Outcome)
    requires Ended(archives, first, rounds, r) && Ended(archives, first, rounds', r') && |rounds| <= |rounds'|
    ensures rounds == rounds'
  {
    var i := 0;
    while i < |rounds|
      invariant 0 <= i <= |rounds| && forall j :: 0 <= j < i ==> rounds[j] == rounds'[j]
    {
      if i > 0 { assert Follows(archives, rounds[i - 1], rounds[i]) && Follows(archives, rounds'[i - 1], rounds'[i]); }
      i := i + 1;
    }
    if |rounds| < |rounds'| { NoMore(archives, rounds[|rounds| - 1], rounds'[|rounds|], r); }
  }

  lemma NoMore(archives: seq<Archive>, last: Pulling, st: Pulling, r: Outcome)
    requires Ends(archives, last, r) && st.Pulling?
    ensures !Follows(archives, last, st)
  {
  }

  ghost predicate Halts(archives: seq<Archive>, st: Pulling, why: Failure) {
    && st.Halted? && InArchives(archives, st.a, st.m)
    && match Meaning(archives[st.a][st.m])
    case Bad => why == BadMember
    case Ok(o) => why.Duplicate? && Twice(st.objs + [o], why.name)
  }

  ghost function Keys(archives: seq<Archive>): set<Key> {
    set a, m | 0 <= a < |archives| && 0 <= m < |archives[a]| :: (a, m)
  }

  ghost predicate Taken(pulled: set<Key>, archives: seq<Archive>, objs: seq<Object>) {
    forall k :: k in pulled ==>
      InArchives(archives, k.0, k.1) && Meaning(archives[k.0][k.1]).Ok? && Meaning(archives[k.0][k.1]).obj in objs
  }

  class Puller {
    const res: Resolver
    const archives: seq<Archive>
    ghost const first: nat
    var pulled: set<Key>

    ghost predicate Valid()
      reads this, res
    {
      && res.Valid() && first <= |res.loaded| && PulledInNeed(res.loaded, first, archives)
      && Taken(pulled, archives, res.loaded)
    }

    ghost function State(): Pulling
      reads this, res
    {
      Pulling(res.loaded, pulled)
    }

    constructor (r: Resolver, arcs: seq<Archive>)
      requires r.Valid()
      ensures Valid() && res == r && archives == arcs && first == |r.loaded| && pulled == {}
    {
      res, archives, pulled := r, arcs, {};
      first := |r.loaded|;
    }

    /** Looks at one member: taken in exactly when it supplies a needed name. */
    method Offer(a: nat, m: nat) returns (s: Step)
      requires Valid() && InArchives(archives, a, m)
      modifies this, res
      ensures old(res.loaded) <= res.loaded && old(pulled) <= pulled
      ensures !s.Stopped? ==> Valid()
      ensures s.Skipped? ==> res.loaded == old(res.loaded) && pulled == old(pulled) && Spent(archives, a, m, res.loaded)
      ensures s.Pulled? ==> old(pulled) < pulled
      ensures s.Stopped? ==> res.loaded == old(res.loaded) && Stuck(s.why, res.loaded, first, archives)
      ensures var st := Offered(archives, old(State()), a, m);
        if s.Stopped? then Halts(archives, st, s.why) else st == State()
    {
      if (a, m) in pulled {
        LoadedSpent(archives, a, m, Meaning(archives[a][m]).obj, res.loaded);
        return Skipped;
      }
      var p := ParseObject(archives[a][m]);
      if p.Bad? {
        return Stopped(BadMember);
      }
      var o := p.obj;
      assert MemberAt(archives, a, m, o);
      var useful := Useful(o);
      if !useful {
        return Skipped;
      }
      s := Take(a, m, o);
    }

    method Useful(o: Object) returns (useful: bool)
      requires res.Valid()
      ensures useful <==> Supplies(res.loaded, o)
    {
      var names := Provided(o.symbols);
      forall n ensures n in names <==> Defines(o, n) { DefinesIs(o, n); }
      var i := 0;
      while i < |names|
        invariant 0 <= i <= |names| && forall j :: 0 <= j < i ==> names[j] !in res.needed
      {
        if names[i] in res.needed {
          return true;
        }
        i := i + 1;
      }
      useful := false;
    }

    method Take(a: nat, m: nat, o: Object) returns (s: Step)
      requires Valid() && MemberAt(archives, a, m, o) && (a, m) !in pulled && Supplies(res.loaded, o)
      modifies this, res
      ensures old(res.loaded) <= res.loaded && old(pulled) <= pulled
      ensures s.Pulled? || s.Stopped?
      ensures s.Pulled? ==> Valid() && old(pulled) < pulled
      ensures s.Stopped? ==> res.loaded == old(res.loaded) && Stuck(s.why, res.loaded, first, archives)
      ensures var st := Offered(archives, old(State()), a, m);
        if s.Stopped? then Halts(archives, st, s.why) else st == State()
    {
      pulled := pulled + {(a, m)};
      ghost var before := res.loaded;
      var clash := res.Admit(o);
      if n :| n in clash {
        return Stopped(Duplicate(n));
      }
      PulledMore(before, o, first, archives);
      s := Pulled;
    }

    /** One pass over every member; no progress means none has anything to give. */
    method Pass() returns (s: Step)
      requires Valid()
      modifies this, res
      ensures old(res.loaded) <= res.loaded && old(pulled) <= pulled
      ensures !s.Stopped? ==> Valid()
      ensures s.Skipped? ==> res.loaded == old(res.loaded) && forall a, m :: InArchives(archives, a, m) ==>
        Spent(archives, a, m, res.loaded)
      ensures s.Pulled? ==> old(pulled) < pulled
      ensures s.Stopped? ==> Stuck(s.why, res.loaded, first, archives)
      ensures var st := Passed(archives, old(State()), 0);
        if s.Stopped? then Halts(archives, st, s.why) else st == State() && (s.Pulled? <==> st != old(State()))
    {
      s := Skipped;
      ghost var start, target := State(), Passed(archives, State(), 0);
      var a := 0;
      while a < |archives|
        invariant 0 <= a <= |archives| && !s.Stopped? && Valid() && old(res.loaded) <= res.loaded
          && old(pulled) <= pulled
        invariant s.Pulled? ==> old(pulled) < pulled
        invariant s.Skipped? ==>
          res.loaded == old(res.loaded)
          && forall b, m :: 0 <= b < a && InArchives(archives, b, m) ==> Spent(archives, b, m, res.loaded)
        invariant Passed(archives, State(), a) == target
        invariant s.Skipped? ==> State() == start
      {
        ghost var before := State();
        var t := PassOne(a);
        if t.Stopped? {
          HaltedOver(archives, before, a);
          return t;
        }
        if t.Pulled? {
          s := Pulled;
        }
        a := a + 1;
      }
    }

    method PassOne(a: nat) returns (s: Step)
      requires Valid() && a < |archives|
      modifies this, res
      ensures old(res.loaded) <= res.loaded && old(pulled) <= pulled
      ensures !s.Stopped? ==> Valid()
      ensures s.Skipped? ==>
        res.loaded == old(res.loaded) && pulled == old(pulled)
        && forall m :: InArchives(archives, a, m) ==> Spent(archives, a, m, res.loaded)
      ensures s.Pulled? ==> old(pulled) < pulled
      ensures s.Stopped? ==> Stuck(s.why, res.loaded, first, archives)
      ensures var st := OfferedFrom(archives, old(State()), a, 0);
        if s.Stopped? then Halts(archives, st, s.why) else st == State()
    {
      s := Skipped;
      ghost var start, target := State(), OfferedFrom(archives, State(), a, 0);
      var m := 0;
      while m < |archives[a]|
        invariant 0 <= m <= |archives[a]| && !s.Stopped? && Valid() && old(res.loaded) <= res.loaded
          && old(pulled) <= pulled
        invariant s.Pulled? ==> old(pulled) < pulled
        invariant s.Skipped? ==> res.loaded == old(res.loaded) && pulled == old(pulled) && forall j :: 0 <= j < m ==>
          Spent(archives, a, j, res.loaded)
        invariant OfferedFrom(archives, State(), a, m) == target
      {
        ghost var before := State();
        var t := Offer(a, m);
        if t.Stopped? {
          HaltedFrom(archives, Offered(archives, before, a, m), a, m + 1);
          return t;
        }
        if t.Pulled? {
          s := Pulled;
        }
        m := m + 1;
      }
    }

    lemma NeededWanting()
      requires Valid()
      ensures SomeWanting(res.loaded) <==> res.needed != {}
    {
      if n :| n in res.needed { assert Wanting(res.loaded, n); }
    }

    /** Passes until nothing is needed or a pass brings nothing. */
    method Settle() returns (r: Outcome, ghost rounds: seq<Pulling>)
      requires Valid() && pulled == {}
      modifies this, res
      ensures Rounds(archives, old(res.loaded), rounds) && Ends(archives, rounds[|rounds| - 1], r)
      ensures old(res.loaded) <= res.loaded
      ensures r.Loaded? ==> r.objects == res.loaded && Valid() && Closed(res.loaded)
      ensures r.Failed? ==> Stuck(r.why, res.loaded, first, archives)
    {
      var progress := true;
      rounds := [State()];
      while progress && res.needed != {}
        invariant Valid() && old(res.loaded) <= res.loaded
        invariant Rounds(archives, old(res.loaded), rounds) && rounds[|rounds| - 1] == State()
        invariant !progress ==> Passed(archives, State(), 0) == State()
        invariant !progress ==> forall a, m :: InArchives(archives, a, m) ==> Spent(archives, a, m, res.loaded)
        decreases Keys(archives) - pulled, progress
      {
        ghost var before, was := pulled, State();
        NeededWanting();
        var s := Pass();
        if s.Stopped? {
          return Failed(s.why), rounds;
        }
        progress := s.Pulled?;
        if progress {
          MoreRounds(archives, old(res.loaded), rounds, State());
          rounds := rounds + [State()];
          ghost var k :| k in pulled && k !in before;
          assert k in Keys(archives) - before;
        }
      }
      NeededWanting();
      if res.needed != {} {
        return Failed(Unresolved(res.needed)), rounds;
      }
      forall n | ReferredBy(res.loaded, n) ensures DefinedBy(res.loaded, n) { assert n !in res.needed; }
      r := Loaded(res.loaded);
    }
  }

  lemma MoreRounds(archives: seq<Archive>, first: seq<Object>, rounds: seq<Pulling>, st: Pulling)
    requires Rounds(archives, first, rounds) && st.Pulling? && Follows(archives, rounds[|rounds| - 1], st)
    ensures Rounds(archives, first, rounds + [st])
  {
    var more := rounds + [st];
    forall i | 0 <= i < |more| - 1 ensures Follows(archives, more[i], more[i + 1]) {
      assert more[i] == rounds[i];
    }
  }

  /**
   * Loads the objects, then archive members until nothing is wanting. On success every undefined symbol has
   * exactly one definer, and a member was taken only for a name wanting at the time. On failure the reason holds.
   */
  method Resolve(objects: seq<Object>, archives: seq<Archive>) returns (r: Outcome)
    ensures Resolution(objects, archives, r)
    ensures r.Loaded? ==> objects <= r.objects && Closed(r.objects) && PulledInNeed(r.objects, |objects|, archives)
    ensures r.Failed? && r.why.Duplicate? ==> Clash(objects, archives, r.why.name)
    ensures r.Failed? && !r.why.Duplicate? ==> exists objs :: objects <= objs && Stuck(r.why, objs, |objects|, archives)
  {
    var res := new Resolver();
    var i := 0;
    while i < |objects|
      invariant 0 <= i <= |objects| && res.Valid() && res.loaded == objects[..i]
    {
      var clash := res.Admit(objects[i]);
      assert objects[..i + 1] == objects[..i] + [objects[i]];
      if n :| n in clash {
        assert Twice(objects[..i + 1], n);
        TwiceLonger(objects, i + 1, n);
        return Failed(Duplicate(n));
      }
      i := i + 1;
    }
    assert objects[..i] == objects;
    OnceEach(objects);
    var p := new Puller(res, archives);
    ghost var rounds;
    r, rounds := p.Settle();
    assert Ended(archives, objects, rounds, r);
  }

  /** Two of the explicit objects, of them and members loaded for need, or of those and one more member, export
      the name. */
  ghost predicate Clash(objects: seq<Object>, archives: seq<Archive>, n: Name) {
    || (exists i :: 0 <= i <= |objects| && Twice(objects[..i], n))
    || (exists objs :: objects <= objs && Stuck(Duplicate(n), objs, |objects|, archives))
  }
}
