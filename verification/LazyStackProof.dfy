/** The deferred write-back of `__csp` refines the straightforward one. */
module LazyStackProof {
  import opened Bytes
  import opened Words
  import opened Int64
  import opened Machine
  import opened LazyStack

  // ---- the two machines side by side ----

  ghost predicate ExceptCell(m: seq<u8>, m': seq<u8>, csp: u32) {
    |m| == |m'| && forall a :: 0 <= a < |m| && !(csp <= a < csp + 4) ==> m[a] == m'[a]
  }

  /** lazy and eager agree on everything but, when the store is owed, the cell of `__csp`;
      whenever `has` holds or the store is owed, R5 is the true `__csp`. */
  ghost predicate Rel(l: Core, e: Core, has: bool, stale: bool, csp: u32) {
    && l.regs == e.regs && l.sp == e.sp && l.flags == e.flags
    && InRange(e.mem, csp)
    && (has || stale ==> e.regs.r5 == Read32(e.mem, csp))
    && (if stale then ExceptCell(l.mem, e.mem, csp) else l.mem == e.mem)
  }

  predicate Ordinary(i: Instr) {
    !i.Jmp? && !i.Jcc? && !i.Label? && !i.External? && !i.Leave?
  }

  predicate StaticOff(i: Instr, csp: u32) {
    (i.Load? || i.Store?) ==> i.addr + 4 <= csp || csp + 4 <= i.addr
  }

  // ---- memory seen through the cell ----

  lemma ReadOff(m: seq<u8>, m': seq<u8>, csp: u32, a: int)
    requires ExceptCell(m, m', csp) && (a + 4 <= csp || csp + 4 <= a) && InRange(m', a)
    ensures Read32(m, a) == Read32(m', a)
  {}

  lemma WriteOff(m: seq<u8>, m': seq<u8>, csp: u32, a: int, v: u32)
    requires ExceptCell(m, m', csp) && (a + 4 <= csp || csp + 4 <= a) && InRange(m', a) && InRange(m', csp)
    ensures ExceptCell(Write32(m, a, v), Write32(m', a, v), csp)
    ensures Read32(Write32(m', a, v), csp) == Read32(m', csp)
  {
    WriteRead(m, a, v); WriteRead(m', a, v);
  }

  /** Writing the true value back makes the memories equal. */
  lemma WriteBack(m: seq<u8>, m': seq<u8>, csp: u32)
    requires ExceptCell(m, m', csp) && InRange(m', csp)
    ensures Write32(m, csp, Read32(m', csp)) == m'
  {
    var v := Read32(m', csp);
    Digits(m'[csp], m'[csp + 1], m'[csp + 2], m'[csp + 3]);
    WriteRead(m, csp, v);
    var w := Write32(m, csp, v);
    forall a | 0 <= a < |m| ensures w[a] == m'[a] {
      if csp <= a < csp + 4 { assert a == csp || a == csp + 1 || a == csp + 2 || a == csp + 3; }
    }
  }

  // ---- ordinary lines ----

  lemma {:induction false} SelfBits(a: nat)
    ensures And(a, a) == a && Or(a, a) == a
  {
    if a != 0 { SelfBits(a / 2); }
  }

  lemma RegisterLine(i: Instr, l: Core, e: Core, has: bool, stale: bool, csp: u32)
    requires (i.Mov? || i.Movr? || i.Op? || i.Cmp?) && Rel(l, e, has, stale, csp)
    requires (stale ==> !ChangesR5(i)) && Exec(i, e).Some?
    ensures Exec(i, l).Some? && Rel(Exec(i, l).value, Exec(i, e).value, has && !MentionsR5(i), stale, csp)
  {
    if MentionsR5(i) && !ChangesR5(i) { UnchangedR5(i, e); }
  }

  lemma UnchangedR5(i: Instr, c: Core)
    requires (i.Mov? || i.Movr? || i.Op? || i.Cmp?) && !ChangesR5(i) && Exec(i, c).Some?
    ensures Exec(i, c).value.regs.r5 == c.regs.r5
  {
    if i.Op? && i.d == R5 { SelfBits(c.regs.r5); }
  }

  lemma ReadLine(i: Instr, l: Core, e: Core, has: bool, stale: bool, csp: u32)
    requires (i.Load? || i.Loadr? || i.Pop?) && Rel(l, e, has, stale, csp)
    requires StaticOff(i, csp) && (stale ==> !ChangesR5(i)) && KeepsOff(i, e, csp) && Exec(i, e).Some?
    ensures Exec(i, l).Some? && Rel(Exec(i, l).value, Exec(i, e).value, has && !MentionsR5(i), stale, csp)
  {
    var a := if i.Load? then i.addr else if i.Loadr? then Get(e.regs, i.a) else e.sp;
    ReadOff(l.mem, e.mem, csp, a);
  }

  lemma WriteLine(i: Instr, l: Core, e: Core, has: bool, stale: bool, csp: u32)
    requires (i.Store? || i.Storer? || i.Push?) && Rel(l, e, has, stale, csp)
    requires StaticOff(i, csp) && KeepsOff(i, e, csp) && Exec(i, e).Some?
    ensures Exec(i, l).Some? && Rel(Exec(i, l).value, Exec(i, e).value, has, stale, csp)
  {
    var a := if i.Store? then i.addr else if i.Storer? then Get(e.regs, i.a) else e.sp - 4;
    WriteOff(l.mem, e.mem, csp, a, Get(e.regs, i.s));
  }

  lemma OrdinaryLine(i: Instr, l: Core, e: Core, has: bool, stale: bool, csp: u32)
    requires Ordinary(i) && Rel(l, e, has, stale, csp)
    requires StaticOff(i, csp) && (stale ==> !ChangesR5(i)) && KeepsOff(i, e, csp) && Exec(i, e).Some?
    ensures KeepsOff(i, l, csp) && Exec(i, l).Some?
    ensures Rel(Exec(i, l).value, Exec(i, e).value, has && !MentionsR5(i), stale, csp)
  {
    if i.Mov? || i.Movr? || i.Op? || i.Cmp? {
      RegisterLine(i, l, e, has, stale, csp);
    } else if i.Load? || i.Loadr? || i.Pop? {
      ReadLine(i, l, e, has, stale, csp);
    } else {
      WriteLine(i, l, e, has, stale, csp);
    }
  }

  // ---- running lines ----

  lemma RunFirst(i: Instr, rest: seq<Instr>, c: Core, callee: (nat, Core) -> Core, csp: u32)
    requires (Ordinary(i) || i.Label?) && KeepsOff(i, c, csp) && Exec(i, c).Some?
    ensures RunLines([i] + rest, c, callee, csp) == RunLines(rest, Exec(i, c).value, callee, csp)
  {
    assert ([i] + rest)[1..] == rest;
  }

  /** The owed store, once made, leaves the two machines in the same state. */
  lemma RunFlush(rest: seq<Instr>, has: bool, l: Core, e: Core, callee: (nat, Core) -> Core, csp: u32)
    requires Rel(l, e, has, true, csp)
    ensures RunLines([Store(R5, csp)] + rest, l, callee, csp) == RunLines(rest, e, callee, csp)
  {
    WriteBack(l.mem, e.mem, csp);
    RunFirst(Store(R5, csp), rest, l, callee, csp);
  }

  /** What one emitter call must achieve. */
  ghost predicate Follows(l: Exit, e: Exit, g: Gen, csp: u32) {
    match e
    case Fall(c) => l.Fall? && Rel(l.c, c, g.has, g.stale, csp)
    case Goto(id, c) => l == e
    case Left(c) => l == e
    case Stuck => true
  }

  lemma LineFollows(i: Instr, has: bool, stale: bool, l: Core, e: Core, callee: (nat, Core) -> Core, csp: u32)
    requires Rel(l, e, has, stale, csp) && Allowed(stale, Line(i), csp) && KeepsRange(callee, csp)
    ensures var g := Segment(has, stale, Line(i), csp);
      Follows(RunLines(g.text, l, callee, csp), RunLines([i], e, callee, csp), g, csp)
  {
    var g := Segment(has, stale, Line(i), csp);
    if stale && NeedsFlush(i, csp) {
      assert g.text == [Store(R5, csp)] + [i];
      RunFlush([i], has, l, e, callee, csp);
      ExactLine(i, true, e, callee, csp);
    } else {
      assert g.text == [i];
      if Ordinary(i) && !MentionsCsp(i, csp) {
        PlainLine(i, has, stale, l, e, callee, csp);
      } else {
        ExactLine(i, has, e, callee, csp);
      }
    }
  }

  /** Calls and traps keep `__csp` inside memory. */
  ghost predicate KeepsRange(callee: (nat, Core) -> Core, csp: u32) {
    forall id: nat, c: Core :: InRange(c.mem, csp) ==> InRange(callee(id, c).mem, csp)
  }

  lemma PlainLine(i: Instr, has: bool, stale: bool, l: Core, e: Core, callee: (nat, Core) -> Core, csp: u32)
    requires Ordinary(i) && !MentionsCsp(i, csp) && Rel(l, e, has, stale, csp) && Allowed(stale, Line(i), csp)
    ensures var e' := RunLines([i], e, callee, csp);
      e'.Fall? ==>
        && RunLines([i], l, callee, csp).Fall?
        && Rel(RunLines([i], l, callee, csp).c, e'.c, has && !MentionsR5(i), stale, csp)
    ensures RunLines([i], e, callee, csp).Fall? || RunLines([i], e, callee, csp).Stuck?
  {
    if KeepsOff(i, e, csp) && Exec(i, e).Some? {
      OrdinaryLine(i, l, e, has, stale, csp);
      RunFirst(i, [], e, callee, csp);
      RunFirst(i, [], l, callee, csp);
      assert [i] + [] == [i];
    }
  }

  /** A line run by both machines in the same state. */
  lemma ExactLine(i: Instr, has: bool, e: Core, callee: (nat, Core) -> Core, csp: u32)
    requires Rel(e, e, has, false, csp) && KeepsRange(callee, csp) && Allowed(false, Line(i), csp)
    requires !Ordinary(i) || MentionsCsp(i, csp)
    ensures var r := RunLines([i], e, callee, csp);
      r.Fall? ==> Rel(r.c, r.c, has && !i.Label? && !MentionsR5(i) && !MentionsCsp(i, csp) && !i.External?, false, csp)
  {
    assert [i][1..] == [];
    assert RunLines([i][1..], e, callee, csp) == Fall(e);
    if i.External? {
      assert RunLines([i], e, callee, csp) == RunLines([], callee(i.id, e), callee, csp);
    }
  }

  // ---- pushes, pops and adjustments ----

  /** Loading `__csp` into R5: the eager machine always does, the lazy one when R5 lacks it. */
  ghost predicate Loaded(l: Core, e: Core, csp: u32) {
    && l.regs == e.regs && l.sp == e.sp && l.flags == e.flags && InRange(e.mem, csp)
    && ExceptCell(l.mem, e.mem, csp)
  }

  /** What bringing `__csp` into R5 takes; an owed store is made first. */
  function LoadText(has: bool, stale: bool, csp: u32): seq<Instr> {
    if has then [] else if stale then [Store(R5, csp), Load(R5, csp)] else [Load(R5, csp)]
  }

  lemma LoadFirst(has: bool, stale: bool, l: Core, e: Core, lrest: seq<Instr>, erest: seq<Instr>,
                  callee: (nat, Core) -> Core, csp: u32)
    returns (l': Core, e': Core)
    requires Rel(l, e, has, stale, csp)
    ensures Loaded(l', e', csp) && e'.regs.r5 == Read32(e.mem, csp) && e'.mem == e.mem
    ensures RunLines(LoadText(has, stale, csp) + lrest, l, callee, csp) == RunLines(lrest, l', callee, csp)
    ensures RunLines([Load(R5, csp)] + erest, e, callee, csp) == RunLines(erest, e', callee, csp)
  {
    e' := Exec(Load(R5, csp), e).value;
    RunFirst(Load(R5, csp), erest, e, callee, csp);
    if has {
      l' := l;
      assert [] + lrest == lrest;
    } else if stale {
      l' := e';
      assert [Store(R5, csp), Load(R5, csp)] + lrest == [Store(R5, csp)] + ([Load(R5, csp)] + lrest);
      RunFlush([Load(R5, csp)] + lrest, has, l, e, callee, csp);
      RunFirst(Load(R5, csp), lrest, e, callee, csp);
    } else {
      l' := Exec(Load(R5, csp), l).value;
      RunFirst(Load(R5, csp), lrest, l, callee, csp);
    }
  }

  /** The same line run by two machines that differ in the cell at most. */
  lemma SameFirst(i: Instr, l: Core, e: Core, lrest: seq<Instr>, erest: seq<Instr>,
                  callee: (nat, Core) -> Core, csp: u32)
    returns (l': Core, e': Core)
    requires Loaded(l, e, csp) && Ordinary(i) && StaticOff(i, csp) && KeepsOff(i, e, csp) && Exec(i, e).Some?
    ensures Loaded(l', e', csp) && e' == Exec(i, e).value && Exec(i, l) == Some(l')
    ensures Read32(e'.mem, csp) == Read32(e.mem, csp)
    ensures RunLines([i] + lrest, l, callee, csp) == RunLines(lrest, l', callee, csp)
    ensures RunLines([i] + erest, e, callee, csp) == RunLines(erest, e', callee, csp)
  {
    SameLine(i, l, e, csp);
    l', e' := Exec(i, l).value, Exec(i, e).value;
    RunFirst(i, lrest, l, callee, csp);
    RunFirst(i, erest, e, callee, csp);
  }

  lemma SameLine(i: Instr, l: Core, e: Core, csp: u32)
    requires Loaded(l, e, csp) && Ordinary(i) && StaticOff(i, csp) && KeepsOff(i, e, csp) && Exec(i, e).Some?
    ensures KeepsOff(i, l, csp) && Exec(i, l).Some? && Loaded(Exec(i, l).value, Exec(i, e).value, csp)
    ensures Read32(Exec(i, e).value.mem, csp) == Read32(e.mem, csp)
  {
    if i.Load? || i.Loadr? || i.Pop? {
      ReadOff(l.mem, e.mem, csp, if i.Load? then i.addr else if i.Loadr? then Get(e.regs, i.a) else e.sp);
    } else if i.Store? || i.Storer? || i.Push? {
      WriteOff(l.mem, e.mem, csp, if i.Store? then i.addr else if i.Storer? then Get(e.regs, i.a) else e.sp - 4,
          Get(e.regs, i.s));
    }
  }

  /** The eager machine's closing store is what the lazy one now owes. */
  lemma StoreLast(l: Core, e: Core, erest: seq<Instr>, callee: (nat, Core) -> Core, csp: u32) returns (e': Core)
    requires Loaded(l, e, csp)
    ensures Rel(l, e', true, true, csp) && e'.regs == e.regs
    ensures RunLines([Store(R5, csp)] + erest, e, callee, csp) == RunLines(erest, e', callee, csp)
  {
    WriteRead(e.mem, csp, e.regs.r5);
    e' := Exec(Store(R5, csp), e).value;
    RunFirst(Store(R5, csp), erest, e, callee, csp);
  }

  lemma AdjustText(has: bool, stale: bool, d: int, csp: u32)
    ensures var n, alu := Wrap32(if d >= 0 then d else -d), if d >= 0 then ADD else SUB;
      Segment(has, stale, Move(d), csp)
      == Gen(LoadText(has, stale, csp) + ([Mov(R7, n)] + ([Op(alu, R5, R7)] + [])), true, true)
  {
    var n, alu := Wrap32(if d >= 0 then d else -d), if d >= 0 then ADD else SUB;
    LoadIs(has, stale, csp);
    assert LoadText(has, stale, csp) + ([Mov(R7, n)] + ([Op(alu, R5, R7)] + []))
        == LoadText(has, stale, csp) + [Mov(R7, n)] + [Op(alu, R5, R7)];
  }

  lemma AdjustFollows(d: int, has: bool, stale: bool, l: Core, e: Core, callee: (nat, Core) -> Core, csp: u32)
    requires Rel(l, e, has, stale, csp)
    ensures var g := Segment(has, stale, Move(d), csp);
      Follows(RunLines(g.text, l, callee, csp), RunLines(Eager(Move(d), csp), e, callee, csp), g, csp)
  {
    var mov, op := Mov(R7, Wrap32(if d >= 0 then d else -d)), Op(if d >= 0 then ADD else SUB, R5, R7);
    AdjustText(has, stale, d, csp);
    assert Eager(Move(d), csp) == [Load(R5, csp)] + ([mov] + ([op] + ([Store(R5, csp)] + [])));
    AdjustRuns(mov, op, has, stale, l, e, callee, csp);
  }

  lemma AdjustRuns(mov: Instr, op: Instr, has: bool, stale: bool, l: Core, e: Core,
                   callee: (nat, Core) -> Core, csp: u32)
    requires Rel(l, e, has, stale, csp) && mov.Mov? && op.Op? && (op.alu == ADD || op.alu == SUB)
    ensures Follows(
        RunLines(LoadText(has, stale, csp) + ([mov] + ([op] + [])), l, callee, csp),
        RunLines([Load(R5, csp)] + ([mov] + ([op] + ([Store(R5, csp)] + []))), e, callee, csp),
        Gen([], true, true), csp)
  {
    var l1,
        e1 := LoadFirst(has, stale, l, e, [mov] + ([op] + []), [mov] + ([op] + ([Store(R5, csp)] + [])), callee, csp);
    var l2, e2 := SameFirst(mov, l1, e1, [op] + [], [op] + ([Store(R5, csp)] + []), callee, csp);
    var l3, e3 := SameFirst(op, l2, e2, [], [Store(R5, csp)] + [], callee, csp);
    var e4 := StoreLast(l3, e3, [], callee, csp);
  }

  lemma PushText(has: bool, stale: bool, r: Reg, csp: u32)
    ensures Segment(has, stale, PushOf(r), csp)
      == Gen(LoadText(has, stale, csp) + ([Storer(R5, r)] + ([Mov(R7, 4)] + ([Op(ADD, R5, R7)] + []))), true, true)
  {
    LoadIs(has, stale, csp);
    assert LoadText(has, stale, csp) + ([Storer(R5, r)] + ([Mov(R7, 4)] + ([Op(ADD, R5, R7)] + [])))
        == LoadText(has, stale, csp) + [Storer(R5, r)] + [Mov(R7, 4)] + [Op(ADD, R5, R7)];
  }

  lemma PushFollows(r: Reg, has: bool, stale: bool, l: Core, e: Core, callee: (nat, Core) -> Core, csp: u32)
    requires Rel(l, e, has, stale, csp)
    ensures var g := Segment(has, stale, PushOf(r), csp);
      Follows(RunLines(g.text, l, callee, csp), RunLines(Eager(PushOf(r), csp), e, callee, csp), g, csp)
  {
    var sto, mov, add := Storer(R5, r), Mov(R7, 4), Op(ADD, R5, R7);
    PushText(has, stale, r, csp);
    var tail := [mov] + ([add] + ([Store(R5, csp)] + []));
    assert Eager(PushOf(r), csp) == [Load(R5, csp)] + ([sto] + tail);
    var l1, e1 := LoadFirst(has, stale, l, e, [sto] + ([mov] + ([add] + [])), [sto] + tail, callee, csp);
    if KeepsOff(sto, e1, csp) && Exec(sto, e1).Some? {
      var l2, e2 := SameFirst(sto, l1, e1, [mov] + ([add] + []), tail, callee, csp);
      var l3, e3 := SameFirst(mov, l2, e2, [add] + [], [add] + ([Store(R5, csp)] + []), callee, csp);
      var l4, e4 := SameFirst(add, l3, e3, [], [Store(R5, csp)] + [], callee, csp);
      var e5 := StoreLast(l4, e4, [], callee, csp);
    } else {
      assert ([sto] + tail)[0] == sto;
    }
  }

  lemma PopText(has: bool, stale: bool, r: Reg, csp: u32)
    requires r != R5
    ensures Segment(has, stale, PopInto(r), csp)
      == Gen(LoadText(has, stale, csp) + ([Mov(R7, 4)] + ([Op(SUB, R5, R7)] + ([Loadr(r, R5)] + []))), true, true)
  {
    var start := LoadText(has, stale, csp);
    LoadIs(has, stale, csp);
    assert start + ([Mov(R7, 4)] + ([Op(SUB, R5, R7)] + ([Loadr(r, R5)] + [])))
        == start + [Mov(R7, 4)] + [Op(SUB, R5, R7)] + [Loadr(r, R5)];
  }

  lemma PopR5Text(has: bool, stale: bool, owed: seq<Instr>, csp: u32)
    requires owed == if has && stale then [Store(R5, csp)] else []
    ensures Segment(has, stale, PopInto(R5), csp)
      == Gen(LoadText(has, stale,
          csp) + ([Mov(R7,
            4)] + ([Op(SUB, R5, R7)] + (owed + ([Store(R5, csp)] + ([Loadr(R5, R5)] + []))))), false, false)
  {
    var start := LoadText(has, stale, csp);
    var line := start + [Mov(R7, 4)] + [Op(SUB, R5, R7)];
    LoadIs(has, stale, csp);
    var g := Emit(Emit(Gen(start, true, has && stale), Mov(R7, 4), csp), Op(SUB, R5, R7), csp);
    assert g == Gen(line, false, has && stale);
    var h := Emit(Emit(g, Store(R5, csp), csp), Loadr(R5, R5), csp);
    assert h.text == line + owed + [Store(R5, csp)] + [Loadr(R5, R5)];
    JoinTail(start, [Mov(R7, 4)], [Op(SUB, R5, R7)], owed, [Store(R5, csp)], [Loadr(R5, R5)]);
  }

  lemma LoadIs(has: bool, stale: bool, csp: u32)
    ensures LoadCsp(Gen([], has, stale), csp) == Gen(LoadText(has, stale, csp), true, has && stale)
  {
    assert [] + [Store(R5, csp)] + [Load(R5, csp)] == [Store(R5, csp), Load(R5, csp)];
    assert [] + [Load(R5, csp)] == [Load(R5, csp)];
  }

  lemma JoinTail(a: seq<Instr>, b: seq<Instr>, c: seq<Instr>, d: seq<Instr>, e: seq<Instr>, f: seq<Instr>)
    ensures a + (b + (c + (d + (e + (f + []))))) == a + b + c + d + e + f
  {
  }

  lemma PopFollows(r: Reg, has: bool, stale: bool, l: Core, e: Core, callee: (nat, Core) -> Core, csp: u32)
    requires Rel(l, e, has, stale, csp) && r != R5
    ensures var g := Segment(has, stale, PopInto(r), csp);
      Follows(RunLines(g.text, l, callee, csp), RunLines(Eager(PopInto(r), csp), e, callee, csp), g, csp)
  {
    PopText(has, stale, r, csp);
    assert Eager(PopInto(r), csp)
        == [Load(R5, csp)] + ([Mov(R7, 4)] + ([Op(SUB, R5, R7)] + ([Store(R5, csp)] + ([Loadr(r, R5)] + []))));
    PopRuns(r, has, stale, l, e, callee, csp);
  }

  lemma PopRuns(r: Reg, has: bool, stale: bool, l: Core, e: Core, callee: (nat, Core) -> Core, csp: u32)
    requires Rel(l, e, has, stale, csp) && r != R5
    ensures Follows(
        RunLines(LoadText(has, stale, csp) + ([Mov(R7, 4)] + ([Op(SUB, R5, R7)] + ([Loadr(r, R5)] + []))), l, callee,
            csp),
        RunLines([Load(R5, csp)] + ([Mov(R7, 4)] + ([Op(SUB, R5, R7)] + ([Store(R5, csp)] + ([Loadr(r, R5)] + [])))), e,
            callee, csp),
        Gen([], true, true), csp)
  {
    var mov, sub, load := Mov(R7, 4), Op(SUB, R5, R7), Loadr(r, R5);
    var etail := [Store(R5, csp)] + ([load] + []);
    var l1, e1 := LoadFirst(has, stale, l, e, [mov] + ([sub] + ([load] + [])), [mov] + ([sub] + etail), callee, csp);
    var l2, e2 := SameFirst(mov, l1, e1, [sub] + ([load] + []), [sub] + etail, callee, csp);
    var l3, e3 := SameFirst(sub, l2, e2, [load] + [], etail, callee, csp);
    var e4 := StoreLast(l3, e3, [load] + [], callee, csp);
    LoadLast(r, l3, e4, callee, csp);
  }

  lemma LoadLast(r: Reg, l: Core, e: Core, callee: (nat, Core) -> Core, csp: u32)
    requires Rel(l, e, true, true, csp) && r != R5
    ensures Follows(RunLines([Loadr(r, R5)] + [], l, callee, csp), RunLines([Loadr(r, R5)] + [], e, callee, csp),
        Gen([], true, true), csp)
  {
    var load := Loadr(r, R5);
    if KeepsOff(load, e, csp) && Exec(load, e).Some? {
      var l', e' := SameFirst(load, l, e, [], [], callee, csp);
    } else {
      assert ([load] + [])[0] == load;
    }
  }

  /** Popping into R5 itself: the store is made at once, twice if one was owed already. */
  lemma PopR5Follows(has: bool, stale: bool, l: Core, e: Core, callee: (nat, Core) -> Core, csp: u32)
    requires Rel(l, e, has, stale, csp)
    ensures var g := Segment(has, stale, PopInto(R5), csp);
      Follows(RunLines(g.text, l, callee, csp), RunLines(Eager(PopInto(R5), csp), e, callee, csp), g, csp)
  {
    var mov, sub := Mov(R7, 4), Op(SUB, R5, R7);
    var owed := if has && stale then [Store(R5, csp)] else [];
    var etail := [Store(R5, csp)] + ([Loadr(R5, R5)] + []);
    PopR5Text(has, stale, owed, csp);
    assert Eager(PopInto(R5), csp) == [Load(R5, csp)] + ([mov] + ([sub] + etail));
    PopR5Runs(has, stale, owed, etail, l, e, callee, csp);
  }

  lemma PopR5Runs(has: bool, stale: bool, owed: seq<Instr>, etail: seq<Instr>, l: Core, e: Core,
                  callee: (nat, Core) -> Core, csp: u32)
    requires Rel(l, e, has, stale, csp) && owed == (if has && stale then [Store(R5, csp)] else [])
    requires etail == [Store(R5, csp)] + ([Loadr(R5, R5)] + [])
    ensures var x := RunLines([Load(R5, csp)] + ([Mov(R7, 4)] + ([Op(SUB, R5, R7)] + etail)), e, callee, csp);
      && RunLines(LoadText(has, stale, csp) + ([Mov(R7, 4)] + ([Op(SUB, R5, R7)] + (owed + etail))), l, callee,
          csp) == x
      && (x.Fall? ==> InRange(x.c.mem, csp))
  {
    var mov, sub := Mov(R7, 4), Op(SUB, R5, R7);
    var l1, e1 := LoadFirst(has, stale, l, e, [mov] + ([sub] + (owed + etail)), [mov] + ([sub] + etail), callee, csp);
    var l2, e2 := SameFirst(mov, l1, e1, [sub] + (owed + etail), [sub] + etail, callee, csp);
    var l3, e3 := SameFirst(sub, l2, e2, owed + etail, etail, callee, csp);
    StoreBoth(has && stale, l3, e3, [Loadr(R5, R5)] + [], callee, csp);
  }

  lemma StoreBoth(stale: bool, l: Core, e: Core, rest: seq<Instr>, callee: (nat, Core) -> Core, csp: u32)
    requires Loaded(l, e, csp)
    ensures RunLines((if stale then [Store(R5, csp)] else []) + ([Store(R5, csp)] + rest), l, callee, csp)
         == RunLines([Store(R5, csp)] + rest, e, callee, csp)
    ensures var r := RunLines([Store(R5, csp)] + rest, e, callee, csp);
      r.Fall? && rest == [Loadr(R5, R5)] + [] ==> InRange(r.c.mem, csp)
  {
    var e' := StoreLast(l, e, rest, callee, csp);
    RunFlush(rest, true, l, e', callee, csp);
    var l' := Exec(Store(R5, csp), l).value;
    WriteBack(l.mem, e'.mem, csp);
    assert l' == e';
    if stale {
      RunFirst(Store(R5, csp), [Store(R5, csp)] + rest, l, callee, csp);
      WriteBack(e'.mem, e'.mem, csp);
      RunFirst(Store(R5, csp), rest, e', callee, csp);
    } else {
      assert [] + ([Store(R5, csp)] + rest) == [Store(R5, csp)] + rest;
    }
    if rest == [Loadr(R5, R5)] + [] && KeepsOff(Loadr(R5, R5), e', csp) && Exec(Loadr(R5, R5), e').Some? {
      RunFirst(Loadr(R5, R5), [], e', callee, csp);
    }
  }

  /** Every emitter call: the lazy lines do what the eager lines do. */
  lemma CallFollows(op: Request, has: bool, stale: bool, l: Core, e: Core, callee: (nat, Core) -> Core, csp: u32)
    requires Rel(l, e, has, stale, csp) && Allowed(stale, op, csp) && KeepsRange(callee, csp)
    ensures var g := Segment(has, stale, op, csp);
      Follows(RunLines(g.text, l, callee, csp), RunLines(Eager(op, csp), e, callee, csp), g, csp)
  {
    match op
    case Line(i) => LineFollows(i, has, stale, l, e, callee, csp);
    case PushOf(r) => PushFollows(r, has, stale, l, e, callee, csp);
    case PopInto(r) =>
      if r == R5 { PopR5Follows(has, stale, l, e, callee, csp); } else { PopFollows(r, has, stale, l, e, callee, csp); }
    case Move(d) => AdjustFollows(d, has, stale, l, e, callee, csp);
    case Flush =>
      if stale {
        assert Segment(has, stale, op, csp).text == [Store(R5, csp)] + [];
        RunFlush([], has, l, e, callee, csp);
      }
  }
}
