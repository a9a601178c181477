/** The generator object: a text that grows, the two flags about `__csp`, and a label counter. */
module Generator {
  import opened Words
  import opened Int64
  import opened Machine
  import opened Codegen
  import LazyStack
  import opened LazyRuns

  type Gen = LazyStack.Gen

  /** The state after emitting lines one by one. */
  function EmitAll(g: Gen, lines: seq<Instr>, csp: u32): Gen
    decreases |lines|
  {
    if lines == [] then g else EmitAll(LazyStack.Emit(g, lines[0], csp), lines[1..], csp)
  }

  lemma {:induction false} EmitAllConcat(g: Gen, a: seq<Instr>, b: seq<Instr>, csp: u32)
    ensures EmitAll(g, a + b, csp) == EmitAll(EmitAll(g, a, csp), b, csp)
    decreases |a|
  {
    if a == [] {
      assert a + b == b;
    } else {
      assert (a + b)[1..] == a[1..] + b;
      EmitAllConcat(LazyStack.Emit(g, a[0], csp), a[1..], b, csp);
    }
  }

  lemma EmitOne(g: Gen, i: Instr, csp: u32)
    ensures EmitAll(g, [i], csp) == LazyStack.Emit(g, i, csp)
  {
    assert [i][1..] == [];
  }

  /** One more line at the end. */
  lemma EmitNext(g: Gen, a: seq<Instr>, i: Instr, csp: u32)
    ensures EmitAll(g, a + [i], csp) == LazyStack.Emit(EmitAll(g, a, csp), i, csp)
  {
    EmitAllConcat(g, a, [i], csp);
    EmitOne(EmitAll(g, a, csp), i, csp);
  }

  // ---- expression code keeps the emitter's rules ----

  ghost predicate Clean(lines: seq<Instr>) {
    forall j :: 0 <= j < |lines| ==> !LazyStack.MentionsR5(lines[j]) && !lines[j].Load? && !lines[j].Store?
  }

  lemma {:induction false} AddressClean(pl: Place, k: nat)
    ensures Clean(AddressCode(pl, k).code)
    decreases pl
  {
    match pl
    case Local(_) =>
    case Global(_) =>
    case At(p) => ExpressionClean(p, k);
    case Member(b, _) => AddressClean(b, k);
  }

  /** Code for an expression names neither R5 nor a fixed address, so it may be emitted whether or
      not a store of `__csp` is owed. */
  lemma {:induction false} ExpressionClean(e: Expr, k: nat)
    ensures Clean(Code(e, k).code)
    decreases e
  {
    match e
    case Num(_) =>
    case RegVar(_) =>
    case AddressOf(pl) => AddressClean(pl, k);
    case Value(pl) => AddressClean(pl, k); PlusClean(AddressCode(pl, k).code, [Loadr(R0, R0)]);
    case AssignReg(p, rhs) => ExpressionClean(rhs, k); PlusClean(Code(rhs, k).code, [Movr(RegOf(p), R0)]);
    case Assign(pl, rhs) =>
      AddressClean(pl, k); ExpressionClean(rhs, AddressCode(pl, k).next);
      AssignClean(AddressCode(pl, k).code, Code(rhs, AddressCode(pl, k).next).code);
    case Neg(x) => ExpressionClean(x, k); PlusClean(Code(x, k).code, [Mov(R1, 0), Op(SUB, R1, R0), Movr(R0, R1)]);
    case Not(x) =>
      ExpressionClean(x, k + 2);
      PlusClean(Code(x, k + 2).code, TestCode(Z, k));
      PlusClean(Code(x, k + 2).code + TestCode(Z, k), SetCode(0, 1, k, k + 1));
    case LogAnd(l, r) =>
      ExpressionClean(l, k + 2); ExpressionClean(r, Code(l, k + 2).next);
      LogicalClean(Code(l, k + 2).code, Z, k, Code(r, Code(l, k + 2).next).code, SetCode(1, 0, k, k + 1));
    case LogOr(l, r) =>
      ExpressionClean(l, k + 2); ExpressionClean(r, Code(l, k + 2).next);
      LogicalClean(Code(l, k + 2).code, NZ, k, Code(r, Code(l, k + 2).next).code, SetCode(0, 1, k, k + 1));
    case Conditional(c, t, f) =>
      var v := Code(c, k + 2);
      var w := Code(t, v.next);
      ExpressionClean(c, k + 2); ExpressionClean(t, v.next); ExpressionClean(f, w.next);
      ConditionalClean(v.code, w.code, k, Code(f, w.next).code);
    case Comma(l, r) =>
      ExpressionClean(l, k); ExpressionClean(r, Code(l, k).next);
      PlusClean(Code(l, k).code, Code(r, Code(l, k).next).code);
    case Bin(op, l, r) =>
      ExpressionClean(l, k); ExpressionClean(r, k); ExpressionClean(l, Code(r, k).next);
      OperandsClean(e, k);
      OperatorClean(OperandCode(e, k).code, op, OperandCode(e, k).next);
  }

  lemma PlusClean(a: seq<Instr>, b: seq<Instr>)
    requires Clean(a) && Clean(b)
    ensures Clean(a + b)
  {
  }

  lemma AssignClean(a: seq<Instr>, v: seq<Instr>)
    requires Clean(a) && Clean(v)
    ensures Clean(a + [Movr(R1, R0)] + v + [Storer(R1, R0)])
    ensures Clean(a + [Push(R0)] + v + [Pop(R1), Storer(R1, R0)])
  {
  }

  lemma LogicalClean(a: seq<Instr>, cond: Cond, hit: nat, b: seq<Instr>, last: seq<Instr>)
    requires Clean(a) && Clean(b) && Clean(last)
    ensures Clean(a + TestCode(cond, hit) + b + TestCode(cond, hit) + last)
  {
  }

  lemma ConditionalClean(a: seq<Instr>, b: seq<Instr>, k: nat, c: seq<Instr>)
    requires Clean(a) && Clean(b) && Clean(c)
    ensures Clean(a + TestCode(Z, k) + b + [Jmp(k + 1), Label(k)] + c + [Label(k + 1)])
  {
  }

  lemma OperatorClean(a: seq<Instr>, op: BinOp, k: nat)
    requires Clean(a)
    ensures Clean(a + OperatorCode(op, k))
  {
  }

  lemma OperandsClean(e: Expr, k: nat)
    requires e.Bin? && Clean(Code(e.left, k).code) && Clean(Code(e.right, k).code)
    requires Clean(Code(e.left, Code(e.right, k).next).code)
    ensures Clean(OperandCode(e, k).code)
  {
  }

  function Requests(lines: seq<Instr>): seq<LazyStack.Request> {
    seq(|lines|, j requires 0 <= j < |lines| => LazyStack.Line(lines[j]))
  }

  /** What GenExpr emits is a sequence of emitter calls that follows the rules. */
  lemma ExpressionDisciplined(e: Expr, k: nat, csp: u32)
    ensures Disciplined(Requests(Code(e, k).code), csp)
  {
    ExpressionClean(e, k);
  }

  lemma {:induction false} EmitAllIsEmitCalls(g: Gen, lines: seq<Instr>, csp: u32)
    ensures EmitAll(g, lines, csp) == EmitCalls(g, Requests(lines), csp)
    decreases |lines|
  {
    if lines != [] {
      assert Requests(lines)[1..] == Requests(lines[1..]);
      EmitAllIsEmitCalls(LazyStack.Emit(g, lines[0], csp), lines[1..], csp);
    }
  }

  class Generator {
    const csp: u32
    var text: seq<Instr>
    var r5HasCsp: bool
    var cspMemStale: bool
    var labelId: nat

    constructor (csp: u32)
      ensures this.csp == csp && State() == LazyStack.Gen([], false, false) && labelId == 0
    {
      this.csp := csp;
      text, r5HasCsp, cspMemStale, labelId := [], false, false, 0;
    }

    ghost function State(): Gen
      reads this
    {
      LazyStack.Gen(text, r5HasCsp, cspMemStale)
    }

    method Emit(line: Instr)
      modifies `text, `r5HasCsp, `cspMemStale
      ensures State() == LazyStack.Emit(old(State()), line, csp)
      decreases if cspMemStale then 2 else 0
    {
      if cspMemStale && LazyStack.NeedsFlush(line, csp) {
        FlushCsp();
      }
      text := text + [line];
      if r5HasCsp {
        if line.Label? || LazyStack.MentionsR5(line) || LazyStack.MentionsCsp(line, csp) || line.External? {
          r5HasCsp := false;
        }
      }
    }

    method FlushCsp()
      modifies `text, `r5HasCsp, `cspMemStale
      ensures State() == LazyStack.FlushCsp(old(State()), csp)
      decreases 1
    {
      if !cspMemStale {
        return;
      }
      cspMemStale := false;
      Emit(Instr.Store(R5, csp));
      r5HasCsp := true;
    }

    method LoadCsp()
      modifies `text, `r5HasCsp, `cspMemStale
      ensures State() == LazyStack.LoadCsp(old(State()), csp)
    {
      if !r5HasCsp {
        Emit(Load(R5, csp));
      }
      r5HasCsp := true;
    }

    method NewLabel() returns (id: nat)
      modifies `labelId
      ensures id == old(labelId) && labelId == old(labelId) + 1
    {
      id := labelId;
      labelId := labelId + 1;
    }

    method PushReg(reg: Reg)
      modifies `text, `r5HasCsp, `cspMemStale
      ensures State() == LazyStack.PushReg(old(State()), reg, csp)
    {
      LoadCsp();
      Emit(Storer(R5, reg));
      Emit(Mov(R7, 4));
      Emit(Op(ADD, R5, R7));
      cspMemStale, r5HasCsp := true, true;
    }

    method PopReg(reg: Reg)
      modifies `text, `r5HasCsp, `cspMemStale
      ensures State() == LazyStack.PopReg(old(State()), reg, csp)
    {
      LoadCsp();
      Emit(Mov(R7, 4));
      Emit(Op(SUB, R5, R7));
      if reg == R5 {
        Emit(Instr.Store(R5, csp));
        Emit(Loadr(R5, R5));
        cspMemStale, r5HasCsp := false, false;
        return;
      }
      cspMemStale := true;
      Emit(Loadr(reg, R5));
      r5HasCsp := true;
    }

    method AdjustCsp(delta: int)
      modifies `text, `r5HasCsp, `cspMemStale
      ensures State() == LazyStack.Adjust(old(State()), delta, csp)
    {
      LoadCsp();
      Emit(Mov(R7, Wrap32(if delta >= 0 then delta else -delta)));
      Emit(Op(if delta >= 0 then ADD else SUB, R5, R7));
      cspMemStale, r5HasCsp := true, true;
    }

    // ---- code for expressions ----

    /** Emits lines in order. `done` is what was emitted since the state g. */
    method EmitThen(line: Instr, ghost g: Gen, ghost done: seq<Instr>) returns (ghost lines: seq<Instr>)
      requires State() == EmitAll(g, done, csp)
      modifies `text, `r5HasCsp, `cspMemStale
      ensures lines == done + [line] && State() == EmitAll(g, lines, csp)
    {
      Emit(line);
      EmitNext(g, done, line, csp);
      lines := done + [line];
    }

    method EmitPair(a: Instr, b: Instr, ghost g: Gen, ghost done: seq<Instr>) returns (ghost lines: seq<Instr>)
      requires State() == EmitAll(g, done, csp)
      modifies `text, `r5HasCsp, `cspMemStale
      ensures lines == done + [a, b] && State() == EmitAll(g, lines, csp)
    {
      lines := EmitThen(a, g, done);
      lines := EmitThen(b, g, lines);
      assert lines == done + [a, b];
    }

    method GenThen(e: Expr, ghost g: Gen, ghost done: seq<Instr>) returns (ghost lines: seq<Instr>)
      requires State() == EmitAll(g, done, csp)
      modifies `text, `r5HasCsp, `cspMemStale, `labelId
      ensures lines == done + Code(e, old(labelId)).code && labelId == Code(e, old(labelId)).next
      ensures State() == EmitAll(g, lines, csp)
      decreases e, 2
    {
      ghost var c := Code(e, labelId).code;
      GenExpr(e);
      EmitAllConcat(g, done, c, csp);
      lines := done + c;
    }

    method GenOffset(off: int)
      modifies `text, `r5HasCsp, `cspMemStale
      ensures State() == EmitAll(old(State()), OffsetCode(off), csp)
    {
      ghost var g, lines := State(), [];
      if off > 0 {
        lines := EmitThen(Mov(R7, Wrap32(off)), g, lines);
        lines := EmitThen(Op(ADD, R0, R7), g, lines);
      } else if off < 0 {
        lines := EmitThen(Mov(R7, Wrap32(-off)), g, lines);
        lines := EmitThen(Op(SUB, R0, R7), g, lines);
      }
      assert lines == OffsetCode(off);
    }

    /** The address of a place into R0. */
    method GenAddr(pl: Place)
      modifies `text, `r5HasCsp, `cspMemStale, `labelId
      ensures State() == EmitAll(old(State()), AddressCode(pl, old(labelId)).code, csp)
      ensures labelId == AddressCode(pl, old(labelId)).next
      decreases pl, 1
    {
      ghost var g, k := State(), labelId;
      match pl {
        case Local(off) =>
          ghost var lines := EmitThen(Movr(R0, R6), g, []);
          EmitAllConcat(g, lines, OffsetCode(off), csp);
          GenOffset(off);
          assert lines == [Movr(R0, R6)];
        case Global(a) =>
          Emit(Mov(R0, a));
          EmitOne(g, Mov(R0, a), csp);
        case At(p) =>
          GenExpr(p);
        case Member(b, at) =>
          GenAddr(b);
          EmitAllConcat(g, AddressCode(b, k).code, OffsetCode(at), csp);
          GenOffset(at);
      }
    }

    /** The value of an expression into R0. */
    method GenExpr(e: Expr)
      modifies `text, `r5HasCsp, `cspMemStale, `labelId
      ensures State() == EmitAll(old(State()), Code(e, old(labelId)).code, csp)
      ensures labelId == Code(e, old(labelId)).next
      decreases e, 1
    {
      ghost var g, k := State(), labelId;
      match e {
        case Num(v) =>
          Emit(Mov(R0, v));
          EmitOne(g, Mov(R0, v), csp);
        case RegVar(p) =>
          Emit(Movr(R0, RegOf(p)));
          EmitOne(g, Movr(R0, RegOf(p)), csp);
        case AddressOf(pl) =>
          GenAddr(pl);
        case Value(pl) =>
          GenAddr(pl);
          Emit(Loadr(R0, R0));
          EmitNext(g, AddressCode(pl, k).code, Loadr(R0, R0), csp);
        case AssignReg(p, rhs) =>
          GenExpr(rhs);
          Emit(Movr(RegOf(p), R0));
          EmitNext(g, Code(rhs, k).code, Movr(RegOf(p), R0), csp);
        case Assign(_, _) =>
          GenAssign(e);
        case Neg(x) =>
          GenNeg(e);
        case Not(x) =>
          GenNot(e);
        case LogAnd(_, _) =>
          GenLogical(e);
        case LogOr(_, _) =>
          GenLogical(e);
        case Conditional(_, _, _) =>
          GenConditional(e);
        case Comma(l, r) =>
          ghost var lines := Code(l, k).code;
          GenExpr(l);
          lines := GenThen(r, g, lines);
        case Bin(_, _, _) =>
          GenBinary(e);
      }
    }

    method GenAssign(e: Expr)
      requires e.Assign?
      modifies `text, `r5HasCsp, `cspMemStale, `labelId
      ensures State() == EmitAll(old(State()), Code(e, old(labelId)).code, csp)
      ensures labelId == Code(e, old(labelId)).next
      decreases e, 0
    {
      ghost var g, k := State(), labelId;
      GenAddr(e.place);
      ghost var a := AddressCode(e.place, k);
      ghost var v := Code(e.rhs, a.next);
      ghost var lines := a.code;
      if ValueIsSimple(e.rhs) {
        lines := EmitThen(Movr(R1, R0), g, lines);
        lines := GenThen(e.rhs, g, lines);
        lines := EmitThen(Storer(R1, R0), g, lines);
        assert lines == a.code + [Movr(R1, R0)] + v.code + [Storer(R1, R0)];
      } else {
        lines := EmitThen(Push(R0), g, lines);
        lines := GenThen(e.rhs, g, lines);
        lines := EmitThen(Pop(R1), g, lines);
        lines := EmitThen(Storer(R1, R0), g, lines);
        assert lines == a.code + [Push(R0)] + v.code + [Pop(R1), Storer(R1, R0)];
      }
    }

    method GenNeg(e: Expr)
      requires e.Neg?
      modifies `text, `r5HasCsp, `cspMemStale, `labelId
      ensures State() == EmitAll(old(State()), Code(e, old(labelId)).code, csp)
      ensures labelId == Code(e, old(labelId)).next
      decreases e, 0
    {
      ghost var g, v := State(), Code(e.operand, labelId);
      GenExpr(e.operand);
      ghost var lines := v.code;
      lines := EmitThen(Mov(R1, 0), g, lines);
      lines := EmitThen(Op(SUB, R1, R0), g, lines);
      lines := EmitThen(Movr(R0, R1), g, lines);
      assert lines == v.code + [Mov(R1, 0), Op(SUB, R1, R0), Movr(R0, R1)];
    }

    /** Jumps on whether R0 is zero. */
    method GenTest(cond: Cond, target: nat, ghost g: Gen, ghost done: seq<Instr>) returns (ghost lines: seq<Instr>)
      requires State() == EmitAll(g, done, csp)
      modifies `text, `r5HasCsp, `cspMemStale
      ensures lines == done + TestCode(cond, target) && State() == EmitAll(g, lines, csp)
    {
      lines := EmitThen(Mov(R7, 0), g, done);
      lines := EmitThen(Cmp(R0, R7), g, lines);
      lines := EmitThen(Jcc(cond, target), g, lines);
      assert lines == done + TestCode(cond, target);
    }

    /** Leaves one of two values in R0, by which of two ways control arrives. */
    method GenSet(v: u32, w: u32, hit: nat, end: nat, ghost g: Gen,
                  ghost done: seq<Instr>) returns (ghost lines: seq<Instr>)
      requires State() == EmitAll(g, done, csp)
      modifies `text, `r5HasCsp, `cspMemStale
      ensures lines == done + SetCode(v, w, hit, end) && State() == EmitAll(g, lines, csp)
    {
      lines := EmitThen(Mov(R0, v), g, done);
      lines := EmitThen(Jmp(end), g, lines);
      lines := EmitThen(Label(hit), g, lines);
      lines := EmitThen(Mov(R0, w), g, lines);
      lines := EmitThen(Label(end), g, lines);
      assert lines == done + SetCode(v, w, hit, end);
    }

    method GenNot(e: Expr)
      requires e.Not?
      modifies `text, `r5HasCsp, `cspMemStale, `labelId
      ensures State() == EmitAll(old(State()), Code(e, old(labelId)).code, csp)
      ensures labelId == Code(e, old(labelId)).next
      decreases e, 0
    {
      ghost var g := State();
      var yes := NewLabel();
      var end := NewLabel();
      ghost var lines := Code(e.operand, labelId).code;
      GenExpr(e.operand);
      lines := GenTest(Z, yes, g, lines);
      lines := GenSet(0, 1, yes, end, g, lines);
    }

    method GenLogical(e: Expr)
      requires e.LogAnd? || e.LogOr?
      modifies `text, `r5HasCsp, `cspMemStale, `labelId
      ensures State() == EmitAll(old(State()), Code(e, old(labelId)).code, csp)
      ensures labelId == Code(e, old(labelId)).next
      decreases e, 0
    {
      ghost var g := State();
      var hit := NewLabel();
      var end := NewLabel();
      var cond := if e.LogAnd? then Z else NZ;
      ghost var lines := Code(e.left, labelId).code;
      GenExpr(e.left);
      lines := GenTest(cond, hit, g, lines);
      lines := GenThen(e.right, g, lines);
      lines := GenTest(cond, hit, g, lines);
      if e.LogAnd? {
        lines := GenSet(1, 0, hit, end, g, lines);
      } else {
        lines := GenSet(0, 1, hit, end, g, lines);
      }
    }

    method GenConditional(e: Expr)
      requires e.Conditional?
      modifies `text, `r5HasCsp, `cspMemStale, `labelId
      ensures State() == EmitAll(old(State()), Code(e, old(labelId)).code, csp)
      ensures labelId == Code(e, old(labelId)).next
      decreases e, 0
    {
      ghost var g := State();
      var els := NewLabel();
      var end := NewLabel();
      ghost var lines := Code(e.cond, labelId).code;
      GenExpr(e.cond);
      lines := GenTest(Z, els, g, lines);
      lines := GenThen(e.yes, g, lines);
      lines := EmitPair(Jmp(end), Label(els), g, lines);
      lines := GenThen(e.no, g, lines);
      lines := EmitThen(Label(end), g, lines);
    }

    method GenBinary(e: Expr)
      requires e.Bin?
      modifies `text, `r5HasCsp, `cspMemStale, `labelId
      ensures State() == EmitAll(old(State()), Code(e, old(labelId)).code, csp)
      ensures labelId == Code(e, old(labelId)).next
      decreases e, 0
    {
      ghost var g, o := State(), OperandCode(e, labelId);
      GenOperands(e);
      ghost var lines := o.code;
      if IsCompare(e.op) {
        lines := GenCompare(e.op, g, lines);
      } else {
        lines := EmitThen(Op(AluOf(e.op), R0, R1), g, lines);
      }
    }

    method GenOperands(e: Expr)
      requires e.Bin?
      modifies `text, `r5HasCsp, `cspMemStale, `labelId
      ensures State() == EmitAll(old(State()), OperandCode(e, old(labelId)).code, csp)
      ensures labelId == OperandCode(e, old(labelId)).next
      decreases e, 0, 0
    {
      ghost var g := State();
      ghost var lines := if IsConst(e.right) then Code(e.left, labelId).code else Code(e.right, labelId).code;
      if IsConst(e.right) {
        GenExpr(e.left);
        lines := EmitThen(Mov(R1, e.right.value), g, lines);
      } else if IsConst(e.left) && Commutative(e.op) {
        GenExpr(e.right);
        lines := EmitThen(Mov(R1, e.left.value), g, lines);
      } else if ValueIsSimple(e.left) {
        GenExpr(e.right);
        lines := EmitThen(Movr(R1, R0), g, lines);
        lines := GenThen(e.left, g, lines);
      } else {
        GenExpr(e.right);
        lines := EmitThen(Push(R0), g, lines);
        lines := GenThen(e.left, g, lines);
        lines := EmitThen(Pop(R1), g, lines);
      }
    }

    method GenCompare(op: BinOp, ghost g: Gen, ghost done: seq<Instr>) returns (ghost lines: seq<Instr>)
      requires IsCompare(op) && State() == EmitAll(g, done, csp)
      modifies `text, `r5HasCsp, `cspMemStale, `labelId
      ensures lines == done + OperatorCode(op, old(labelId)) && State() == EmitAll(g, lines, csp)
      ensures labelId == old(labelId) + 2
    {
      var yes := NewLabel();
      var end := NewLabel();
      lines := EmitThen(Cmp(R0, R1), g, done);
      lines := EmitThen(Jcc(CondOf(op), yes), g, lines);
      lines := GenSet(0, 1, yes, end, g, lines);
      assert lines == done + OperatorCode(op, yes);
    }
  }
}
