/** Running the text the generator really emits, stores of `__csp` and all, computes the expression. */
module EmittedCode {
  import opened Bytes
  import opened Words
  import opened Machine
  import opened Codegen
  import opened LazyStackProof
  import opened LazyStack
  import P = CodegenProof
  import CodegenLabels
  import Generator

  // ---- where each line of the plain code is in the emitted text ----

  /** The emitter after the first t lines. */
  function Woven(code: seq<Instr>, t: nat, g: Gen, csp: u32): Gen
    requires t <= |code|
    decreases t
  {
    if t == 0 then g else Emit(Woven(code, t - 1, g, csp), code[t - 1], csp)
  }

  lemma {:induction false} WovenIs(code: seq<Instr>, t: nat, g: Gen, csp: u32)
    requires t <= |code|
    ensures Woven(code, t, g, csp) == Generator.EmitAll(g, code[..t], csp)
    decreases t
  {
    if t > 0 {
      WovenIs(code, t - 1, g, csp);
      assert code[..t] == code[..t - 1] + [code[t - 1]];
      Generator.EmitNext(g, code[..t - 1], code[t - 1], csp);
    }
  }

  predicate Due(stale: bool, i: Instr, csp: u32) { stale && NeedsFlush(i, csp) }

  /** What a line adds: the owed store first, when the line needs it made. */
  function Added(stale: bool, i: Instr, csp: u32): seq<Instr> {
    if Due(stale, i, csp) then [Instr.Store(R5, csp), i] else [i]
  }

  lemma EmitAdds(g: Gen, i: Instr, csp: u32)
    ensures Emit(g, i, csp).text == g.text + Added(g.stale, i, csp)
  {
    if Due(g.stale, i, csp) { assert g.text + [Instr.Store(R5, csp)] + [i] == g.text + [Instr.Store(R5, csp), i]; }
  }

  /** Earlier text stays where it is. */
  lemma {:induction false} WovenGrows(code: seq<Instr>, t: nat, u: nat, g: Gen, csp: u32)
    requires t <= u <= |code|
    ensures Woven(code, t, g, csp).text <= Woven(code, u, g, csp).text
    decreases u
  {
    if t < u {
      WovenGrows(code, t, u - 1, g, csp);
      EmitAdds(Woven(code, u - 1, g, csp), code[u - 1], csp);
    }
  }

  /** The lines for line t in the whole text: the line itself, after the store when that is due. */
  lemma LinesAt(code: seq<Instr>, t: nat, g: Gen, csp: u32, text: seq<Instr>)
    requires t < |code| && text == Woven(code, |code|, g, csp).text
    ensures var w := Woven(code, t, g, csp); var q, n := |w.text|, |Added(w.stale, code[t], csp)|;
      && |Woven(code, t + 1, g, csp).text| == q + n <= |text| && text[q + n - 1] == code[t]
      && (Due(w.stale, code[t], csp) ==> text[q] == Instr.Store(R5, csp))
  {
    var w := Woven(code, t, g, csp);
    EmitAdds(w, code[t], csp);
    WovenGrows(code, t + 1, |code|, g, csp);
    var part := w.text + Added(w.stale, code[t], csp);
    assert part[|part| - 1] == code[t] && part <= text;
  }

  // ---- labels ----

  lemma {:induction false} FindPast(a: seq<Instr>, b: seq<Instr>, id: nat)
    requires Label(id) !in a
    ensures Find(a + b, id) == |a| + Find(b, id)
    decreases |a|
  {
    if a == [] {
      assert a + b == b;
    } else {
      assert (a + b)[0] == a[0] && (a + b)[1..] == a[1..] + b;
      FindPast(a[1..], b, id);
    }
  }

  lemma {:induction false} FirstFound(code: seq<Instr>, id: nat)
    ensures Label(id) !in code[..Find(code, id)]
    decreases |code|
  {
    if code != [] && code[0] != Label(id) {
      FirstFound(code[1..], id);
      var n := Find(code, id);
      assert code[..n] == [code[0]] + code[1..][..n - 1];
    }
  }

  lemma {:induction false} NotYet(code: seq<Instr>, t: nat, g: Gen, csp: u32, id: nat)
    requires t <= |code| && Label(id) !in g.text && Label(id) !in code[..t]
    ensures Label(id) !in Woven(code, t, g, csp).text
    decreases t
  {
    if t > 0 {
      assert code[t - 1] in code[..t] && code[..t - 1] <= code[..t];
      NotYet(code, t - 1, g, csp, id);
      EmitAdds(Woven(code, t - 1, g, csp), code[t - 1], csp);
    }
  }

  /** A label is found as the last of the lines for its own line. */
  lemma FindWoven(code: seq<Instr>, id: nat, g: Gen, csp: u32, text: seq<Instr>)
    requires Label(id) in code && Label(id) !in g.text && text == Woven(code, |code|, g, csp).text
    ensures var n := Find(code, id);
      n < |code| && Label(id) in text && Find(text, id) + 1 == |Woven(code, n + 1, g, csp).text|
  {
    var n := Find(code, id);
    FirstFound(code, id);
    NotYet(code, n, g, csp, id);
    LinesAt(code, n, g, csp, text);
    WovenGrows(code, n, |code|, g, csp);
    EmitAdds(Woven(code, n, g, csp), code[n], csp);
    FoundAfter(Woven(code, n, g, csp).text, Added(Woven(code, n, g, csp).stale, code[n], csp), id, text);
  }

  lemma FoundAfter(a: seq<Instr>, lines: seq<Instr>, id: nat, text: seq<Instr>)
    requires Label(id) !in a && a <= text && |a| + |lines| <= |text|
      && (lines == [Label(id)] || (|lines| == 2 && lines[0].Store? && lines[1] == Label(id)))
    requires forall j :: 0 <= j < |lines| ==> text[|a| + j] == lines[j]
    ensures Label(id) in text && Find(text, id) == |a| + |lines| - 1
  {
    var n := |a| + |lines| - 1;
    var front := text[..n];
    assert text == front + text[n..];
    assert text[|a| + (|lines| - 1)] == lines[|lines| - 1];
    assert Label(id) !in front by {
      forall j | 0 <= j < n ensures front[j] != Label(id) {
        if j < |a| { assert front[j] == a[j]; } else { assert front[j] == lines[j - |a|]; }
      }
    }
    FindPast(front, text[n..], id);
  }

  // ---- the two programs side by side ----

  /** The emitted program is where the plain one is: at the same line with related states, or at the
      label itself, having jumped there, with the same state. */
  ghost predicate Beside(code: seq<Instr>, g: Gen, csp: u32, t: nat, e: Core, q: nat, l: Core) {
    && t <= |code|
    && var w := Woven(code, t, g, csp);
      || (q == |w.text| && Rel(l, e, w.has, w.stale, csp))
      || (t < |code| && code[t].Label? && q + 1 == |Woven(code, t + 1, g, csp).text| && l == e && InRange(e.mem, csp))
  }

  /** The text before the code has none of its labels. */
  ghost predicate Foreign(base: seq<Instr>, code: seq<Instr>) {
    forall id: nat :: Label(id) in code ==> Label(id) !in base
  }

  /** The owed store, if it is due, leaves the two machines in the same state. */
  lemma StoreDue(p: Program, q: nat, i: Instr, w: Gen, e: Core, l: Core,
                 csp: u32) returns (l': Core, has: bool, stale: bool)
    requires p.cell == NOWHERE && Rel(l, e, w.has, w.stale, csp) && q < |p.code|
    requires Due(w.stale, i, csp) ==> p.code[q] == Instr.Store(R5, csp)
    ensures Runs(p, q, l, q + |Added(w.stale, i, csp)| - 1, l')
    ensures Rel(l', e, has, stale, csp) && (stale ==> !NeedsFlush(i, csp))
    ensures Emit(w, i, csp).has == Put(Gen([], has, stale), i, csp).has && Emit(w, i, csp).stale == stale
  {
    if Due(w.stale, i, csp) {
      WriteBack(l.mem, e.mem, csp);
      l', has, stale := e, true, false;
      RunsStep(p, q, l, q + 1, e);
    } else {
      l', has, stale := l, w.has, w.stale;
      RunsNot(p, q, l);
    }
  }

  /** To the line itself in the emitted text. */
  lemma Reach(code: seq<Instr>, g: Gen, csp: u32, p: Program, t: nat, e: Core, q: nat,
              l: Core) returns (q': nat, l': Core, has: bool, stale: bool)
    requires p == Program(Woven(code, |code|, g, csp).text, NOWHERE) && t < |code| && Beside(code, g, csp, t, e, q, l)
    ensures q' + 1 == |Woven(code, t + 1, g, csp).text| && q' < |p.code| && p.code[q'] == code[t]
      && Runs(p, q, l, q', l')
    ensures Rel(l', e, has, stale, csp) && (stale ==> !NeedsFlush(code[t], csp))
    ensures var w := Woven(code, t + 1, g, csp); w.has == Put(Gen([], has, stale), code[t], csp).has && w.stale == stale
  {
    LinesAt(code, t, g, csp, p.code);
    var w := Woven(code, t, g, csp);
    q' := |Woven(code, t + 1, g, csp).text| - 1;
    if q == |w.text| && Rel(l, e, w.has, w.stale, csp) {
      l', has, stale := StoreDue(p, q, code[t], w, e, l, csp);
    } else {
      l', has, stale := l, false, false;
      RunsNot(p, q, l);
    }
  }

  /** A line that does not jump. */
  lemma LineBeside(p: Program, i: Instr, q: nat, l: Core, e: Core, has: bool, stale: bool, csp: u32) returns (l': Core)
    requires q < |p.code| && p.code[q] == i && p.cell == NOWHERE && (Ordinary(i) || i.Label?)
      && Rel(l, e, has, stale, csp)
    requires !MentionsR5(i) && !i.Load? && !i.Store? && KeepsOff(i, e, csp) && Exec(i, e).Some?
      && (stale ==> !NeedsFlush(i, csp))
    ensures Runs(p, q, l, q + 1, l') && Rel(l', Exec(i, e).value, Put(Gen([], has, stale), i, csp).has, stale, csp)
  {
    if i.Label? {
      l' := l;
    } else {
      OrdinaryLine(i, l, e, has, stale, csp);
      l' := Exec(i, l).value;
    }
    RunsStep(p, q, l, q + 1, l');
  }

  /** The line itself, and where it leads. */
  lemma Beyond(code: seq<Instr>, g: Gen, csp: u32, p: Program, t: nat, e: Core, t': nat, e': Core, q: nat, l: Core,
               has: bool, stale: bool)
    returns (q': nat, l': Core)
    requires p == Program(Woven(code, |code|, g, csp).text, NOWHERE) && Generator.Clean(code) && Foreign(g.text, code)
    requires t < |code| && Step(Program(code, csp), t, e) == Some((t', e'))
    requires q + 1 == |Woven(code, t + 1, g, csp).text| && q < |p.code| && p.code[q] == code[t]
    requires Rel(l, e, has, stale, csp) && (stale ==> !NeedsFlush(code[t], csp))
    requires var w := Woven(code, t + 1, g, csp);
      w.has == Put(Gen([], has, stale), code[t], csp).has && w.stale == stale
    ensures Runs(p, q, l, q', l') && Beside(code, g, csp, t', e', q', l')
  {
    var i := code[t];
    if i.Jmp? || (i.Jcc? && Holds(i.cond, e.flags)) {
      FindWoven(code, i.target, g, csp, p.code);
      q', l' := Find(p.code, i.target), l;
      RunsStep(p, q, l, q', l);
    } else if i.Jcc? {
      q', l' := q + 1, l;
      RunsStep(p, q, l, q', l);
    } else {
      l' := LineBeside(p, i, q, l, e, has, stale, csp);
      q' := q + 1;
    }
  }

  /** A line that keeps off the cell of `__csp` leaves it as it is. */
  lemma CellKept(i: Instr, c: Core, csp: u32)
    requires KeepsOff(i, c, csp) && !i.Store? && InRange(c.mem, csp)
    ensures Exec(i, c).Some? ==>
      InRange(Exec(i, c).value.mem, csp) && Read32(Exec(i, c).value.mem, csp) == Read32(c.mem, csp)
  {
    if Exec(i, c).Some? && (i.Storer? || i.Push?) {
      WriteOff(c.mem, c.mem, csp, if i.Storer? then Get(c.regs, i.a) else c.sp - 4, Get(c.regs, i.s));
    }
  }

  /** Every step of the plain code is followed by the emitted text. */
  lemma StepBeside(code: seq<Instr>, g: Gen, csp: u32, p: Program, t: nat, e: Core, t': nat, e': Core, q: nat, l: Core)
    returns (q': nat, l': Core)
    requires p == Program(Woven(code, |code|, g, csp).text, NOWHERE) && Generator.Clean(code) && Foreign(g.text, code)
    requires t < |code| && Step(Program(code, csp), t, e) == Some((t', e')) && Beside(code, g, csp, t, e, q, l)
    ensures Runs(p, q, l, q', l') && Beside(code, g, csp, t', e', q', l')
    ensures InRange(e.mem, csp) && InRange(e'.mem, csp) && Read32(e'.mem, csp) == Read32(e.mem, csp)
  {
    CellKept(code[t], e, csp);
    var q1, l1, has, stale := Reach(code, g, csp, p, t, e, q, l);
    q', l' := Beyond(code, g, csp, p, t, e, t', e', q1, l1, has, stale);
    RunsTrans(p, q, l, q1, l1, q', l');
  }

  lemma {:induction false} RunBeside(code: seq<Instr>, g: Gen, csp: u32, p: Program, t: nat, e: Core, t': nat, e': Core,
                                     n: nat, q: nat, l: Core)
    returns (q': nat, l': Core)
    requires p == Program(Woven(code, |code|, g, csp).text, NOWHERE) && Generator.Clean(code) && Foreign(g.text, code)
    requires RunsIn(Program(code, csp), t, e, t', e', n) && Beside(code, g, csp, t, e, q, l) && InRange(e.mem, csp)
    ensures Runs(p, q, l, q', l') && Beside(code, g, csp, t', e', q', l')
    ensures InRange(e'.mem, csp) && Read32(e'.mem, csp) == Read32(e.mem, csp)
    decreases n
  {
    if n == 0 {
      q', l' := q, l;
      RunsNot(p, q, l);
    } else {
      var s := Step(Program(code, csp), t, e).value;
      var q1, l1 := StepBeside(code, g, csp, p, t, e, s.0, s.1, q, l);
      q', l' := RunBeside(code, g, csp, p, s.0, s.1, t', e', n - 1, q1, l1);
      RunsTrans(p, q, l, q1, l1, q', l');
    }
  }

  // ---- the theorem ----

  /** The true `__csp`: in R5 while its store is owed, otherwise in memory. */
  function TrueCsp(c: Core, stale: bool, csp: u32): u32
    requires InRange(c.mem, csp)
  {
    if stale then c.regs.r5 else Read32(c.mem, csp)
  }

  /** No label of the code is in the text before it. */
  lemma FreshForeign(base: seq<Instr>, e: Expr, k: nat)
    requires forall id: nat :: Label(id) in base ==> id < k
    ensures Foreign(base, Code(e, k).code)
  {
    CodegenLabels.CodeFresh(e, k);
    forall id: nat | Label(id) in Code(e, k).code ensures Label(id) !in base {
      assert id in CodegenLabels.Ids(Code(e, k).code);
    }
  }

  /** What running the code of an expression must leave behind on the machine that defers the store. */
  ghost predicate Leaves(l: Core, stale: bool, l': Core, stale': bool, o: Outcome, env: Env, csp: u32) {
    && o.Result? && l'.regs.r0 == o.value
    && l'.regs.r2 == o.store.p2 && l'.regs.r3 == o.store.p3 && l'.regs.r4 == o.store.p4
    && l'.sp == l.sp && l'.regs.r5 == l.regs.r5 && l'.regs.r6 == l.regs.r6
    && |l'.mem| == |o.store.mem| == |l.mem|
    && (forall a :: 0 <= a < |l'.mem| && !(env.low <= a < env.high) && !(csp <= a < csp + 4) ==>
        l'.mem[a] == o.store.mem[a])
    && (forall a :: 0 <= a < |l'.mem| && l.sp <= a < env.high && !(csp <= a < csp + 4) ==> l'.mem[a] == l.mem[a])
    && InRange(l.mem, csp) && InRange(l'.mem, csp) && TrueCsp(l', stale', csp) == TrueCsp(l, stale, csp)
  }

  lemma LeavesNow(l: Core, c: Core, l': Core, c': Core, g: Gen, h: Gen, o: Outcome, env: Env, csp: u32)
    requires Rel(l, c, g.has, g.stale, csp) && Rel(l', c', h.has, h.stale, csp) && P.Done(c, c', o, env, false)
      && c'.regs.r6 == c.regs.r6
    requires Read32(c'.mem, csp) == Read32(c.mem, csp)
    ensures Leaves(l, g.stale, l', h.stale, o, env, csp)
  {
    assert |l'.mem| == |c'.mem| && |c'.mem| == |c.mem| && |l.mem| == |c.mem|;
  }

  /**
   * The text GenExpr appends to whatever was emitted before, from any state of the two flags. Started
   * where it begins, on a machine that stands for the store up to an owed `__csp`, it runs to its end.
   * R0 is then the value; registers, memory and the stack are as the expression leaves them; `__csp` is
   * what it was, in R5 or in memory as the flags then say.
   */
  lemma EmittedCorrect(e: Expr, k: nat, g: Gen, l: Core, c: Core, s: Store, env: Env, csp: u32) returns (l': Core)
    requires env.cell == csp && Rel(l, c, g.has, g.stale, csp) && forall id: nat :: Label(id) in g.text ==> id < k
    requires P.Matches(c, s, env) && P.Fits(c, env, P.Depth(e)) && Eval(e, env, s).Result?
    ensures var h := Generator.EmitAll(g, Code(e, k).code, csp);
      Runs(Program(h.text, NOWHERE), |g.text|, l, |h.text|, l')
        && Leaves(l, g.stale, l', h.stale, Eval(e, env, s), env, csp)
  {
    var code := Code(e, k).code;
    CodegenLabels.CodeFresh(e, k);
    var c' := P.ExprRuns(Program(code, csp), 0, e, k, c, s, env);
    Generator.ExpressionClean(e, k);
    FreshForeign(g.text, e, k);
    WovenIs(code, |code|, g, csp);
    assert code[..|code|] == code;
    var h := Woven(code, |code|, g, csp);
    var n: nat :| RunsIn(Program(code, csp), 0, c, |code|, c', n);
    var q;
    q, l' := RunBeside(code, g, csp, Program(h.text, NOWHERE), 0, c, |code|, c', n, |g.text|, l);
    LeavesNow(l, c, l', c', g, h, Eval(e, env, s), env, csp);
  }
}
