/** Labels drawn from the counter never clash, and the correctness theorem for a whole expression. */
module CodegenLabels {
  import opened Words
  import opened Machine
  import opened Codegen
  import opened CodegenProof

  ghost function Ids(code: seq<Instr>): set<nat> {
    set i | 0 <= i < |code| && code[i].Label? :: code[i].id
  }

  /** Every label is defined once, with a number drawn between lo and hi. */
  ghost predicate Fresh(code: seq<Instr>, lo: nat, hi: nat) {
    lo <= hi && Unique(code) && forall id :: id in Ids(code) ==> lo <= id < hi
  }

  lemma JoinIds(a: seq<Instr>, b: seq<Instr>)
    ensures Ids(a + b) == Ids(a) + Ids(b)
    ensures Unique(a) && Unique(b) && Ids(a) !! Ids(b) ==> Unique(a + b)
  {
    var ab := a + b;
    forall id | id in Ids(a) + Ids(b) ensures id in Ids(ab) {
      if id in Ids(a) {
        var i :| 0 <= i < |a| && a[i] == Label(id);
        assert ab[i] == Label(id);
      } else {
        var i :| 0 <= i < |b| && b[i] == Label(id);
        assert ab[|a| + i] == Label(id);
      }
    }
    if Unique(a) && Unique(b) && Ids(a) !! Ids(b) {
      forall i, j | 0 <= i < |ab| && 0 <= j < |ab| && ab[i].Label? && ab[i] == ab[j] ensures i == j {
        assert ab[i].id in (if i < |a| then Ids(a) else Ids(b));
        assert ab[j].id in (if j < |a| then Ids(a) else Ids(b));
      }
    }
  }

  /** Lines without labels may go anywhere. */
  lemma PlainIds(code: seq<Instr>)
    requires forall i :: 0 <= i < |code| ==> !code[i].Label?
    ensures Ids(code) == {} && Unique(code)
  {}

  lemma JoinPlain(a: seq<Instr>, b: seq<Instr>)
    requires forall i :: 0 <= i < |b| ==> !b[i].Label?
    ensures Ids(a + b) == Ids(a) && (Unique(a) ==> Unique(a + b))
  {
    PlainIds(b);
    JoinIds(a, b);
  }

  lemma SetIds(v: u32, w: u32, k: nat)
    ensures Ids(SetCode(v, w, k, k + 1)) == {k, k + 1} && Unique(SetCode(v, w, k, k + 1))
  {
    var code := SetCode(v, w, k, k + 1);
    assert code[2] == Label(k) && code[4] == Label(k + 1);
    assert forall i :: 0 <= i < |code| && code[i].Label? ==> i == 2 || i == 4;
  }

  lemma {:induction false} CodeFresh(e: Expr, k: nat)
    ensures Fresh(Code(e, k).code, k, Code(e, k).next)
    decreases e, 3
  {
    match e
    case Num(v) => PlainIds([Mov(R0, v)]);
    case RegVar(r) => PlainIds([Movr(R0, RegOf(r))]);
    case AddressOf(pl) => AddressFresh(pl, k);
    case Value(pl) =>
      AddressFresh(pl, k);
      JoinPlain(AddressCode(pl, k).code, [Loadr(R0, R0)]);
    case AssignReg(r, rhs) =>
      CodeFresh(rhs, k);
      JoinPlain(Code(rhs, k).code, [Movr(RegOf(r), R0)]);
    case Assign(_, _) => AssignFresh(e, k);
    case Neg(x) =>
      CodeFresh(x, k);
      JoinPlain(Code(x, k).code, [Mov(R1, 0), Op(SUB, R1, R0), Movr(R0, R1)]);
    case Not(x) =>
      CodeFresh(x, k + 2);
      JoinPlain(Code(x, k + 2).code, TestCode(Z, k));
      SetIds(0, 1, k);
      JoinIds(Code(x, k + 2).code + TestCode(Z, k), SetCode(0, 1, k, k + 1));
    case LogAnd(l, r) => LogicalFresh(e, k, Z, 1, 0);
    case LogOr(l, r) => LogicalFresh(e, k, NZ, 0, 1);
    case Conditional(_, _, _) => ConditionalFresh(e, k);
    case Comma(l, r) =>
      CodeFresh(l, k);
      CodeFresh(r, Code(l, k).next);
      JoinIds(Code(l, k).code, Code(r, Code(l, k).next).code);
    case Bin(op, _, _) =>
      OperandFresh(e, k);
      OperatorFresh(op, OperandCode(e, k).code, k, OperandCode(e, k).next);
  }

  lemma {:induction false} AddressFresh(pl: Place, k: nat)
    ensures Fresh(AddressCode(pl, k).code, k, AddressCode(pl, k).next)
    decreases pl, 3
  {
    match pl
    case Local(off) => PlainIds([Movr(R0, R6)] + OffsetCode(off));
    case Global(a) => PlainIds([Mov(R0, a)]);
    case At(p) => CodeFresh(p, k);
    case Member(b, at) =>
      AddressFresh(b, k);
      JoinPlain(AddressCode(b, k).code, OffsetCode(at));
  }

  /** Two pieces of code around a line without labels. */
  lemma AroundFresh(a: seq<Instr>, mid: Instr, b: seq<Instr>, lo: nat, m: nat, hi: nat)
    requires Fresh(a, lo, m) && Fresh(b, m, hi) && !mid.Label?
    ensures Fresh(a + [mid] + b, lo, hi)
  {
    JoinPlain(a, [mid]);
    JoinIds(a + [mid], b);
  }

  lemma {:induction false} AssignFresh(e: Expr, k: nat)
    requires e.Assign?
    ensures Fresh(Code(e, k).code, k, Code(e, k).next)
    decreases e, 2
  {
    var a := AddressCode(e.place, k);
    var v := Code(e.rhs, a.next);
    AddressFresh(e.place, k);
    CodeFresh(e.rhs, a.next);
    if ValueIsSimple(e.rhs) {
      AroundFresh(a.code, Movr(R1, R0), v.code, k, a.next, v.next);
      JoinPlain(a.code + [Movr(R1, R0)] + v.code, [Storer(R1, R0)]);
    } else {
      AroundFresh(a.code, Push(R0), v.code, k, a.next, v.next);
      JoinPlain(a.code + [Push(R0)] + v.code, [Pop(R1), Storer(R1, R0)]);
    }
  }

  lemma {:induction false} LogicalFresh(e: Expr, k: nat, cond: Cond, x: u32, y: u32)
    requires e.LogAnd? || e.LogOr?
    ensures var v := Code(e.left, k + 2);
      var w := Code(e.right, v.next);
      Fresh(v.code + TestCode(cond, k) + w.code + TestCode(cond, k) + SetCode(x, y, k, k + 1), k, w.next)
    decreases e, 2
  {
    var v := Code(e.left, k + 2);
    var w := Code(e.right, v.next);
    CodeFresh(e.left, k + 2);
    CodeFresh(e.right, v.next);
    TestsFresh(v.code, w.code, k, v.next, w.next, cond, x, y);
  }

  lemma TestsFresh(a: seq<Instr>, b: seq<Instr>, k: nat, m: nat, hi: nat, cond: Cond, x: u32, y: u32)
    requires Fresh(a, k + 2, m) && Fresh(b, m, hi)
    ensures Fresh(a + TestCode(cond, k) + b + TestCode(cond, k) + SetCode(x, y, k, k + 1), k, hi)
  {
    var test := TestCode(cond, k);
    JoinPlain(a, test);
    JoinIds(a + test, b);
    JoinPlain(a + test + b, test);
    SetIds(x, y, k);
    JoinIds(a + test + b + test, SetCode(x, y, k, k + 1));
  }

  lemma LabelIds(a: seq<Instr>, k: nat)
    requires Unique(a) && k !in Ids(a)
    ensures Unique(a + [Label(k)]) && Ids(a + [Label(k)]) == Ids(a) + {k}
  {
    assert [Label(k)][0] == Label(k);
    assert Ids([Label(k)]) == {k} && Unique([Label(k)]);
    JoinIds(a, [Label(k)]);
  }

  lemma {:induction false} ConditionalFresh(e: Expr, k: nat)
    requires e.Conditional?
    ensures Fresh(Code(e, k).code, k, Code(e, k).next)
    decreases e, 2
  {
    var v := Code(e.cond, k + 2);
    var w := Code(e.yes, v.next);
    var x := Code(e.no, w.next);
    CodeFresh(e.cond, k + 2);
    CodeFresh(e.yes, v.next);
    CodeFresh(e.no, w.next);
    var a := v.code + TestCode(Z, k);
    JoinPlain(v.code, TestCode(Z, k));
    JoinIds(a, w.code);
    ArmsFresh(a + w.code, x.code, k, w.next, x.next);
  }

  lemma ArmsFresh(a: seq<Instr>, b: seq<Instr>, k: nat, m: nat, hi: nat)
    requires Fresh(a, k + 2, m) && Fresh(b, m, hi)
    ensures Fresh(a + [Jmp(k + 1), Label(k)] + b + [Label(k + 1)], k, hi)
  {
    JoinPlain(a, [Jmp(k + 1)]);
    LabelIds(a + [Jmp(k + 1)], k);
    assert a + [Jmp(k + 1)] + [Label(k)] == a + [Jmp(k + 1), Label(k)];
    JoinIds(a + [Jmp(k + 1), Label(k)], b);
    LabelIds(a + [Jmp(k + 1), Label(k)] + b, k + 1);
  }

  lemma {:induction false} OperandFresh(e: Expr, k: nat)
    requires e.Bin?
    ensures Fresh(OperandCode(e, k).code, k, OperandCode(e, k).next)
    decreases e, 2
  {
    var l, r := e.left, e.right;
    if IsConst(r) {
      CodeFresh(l, k);
      JoinPlain(Code(l, k).code, [Mov(R1, r.value)]);
    } else if IsConst(l) && Commutative(e.op) {
      CodeFresh(r, k);
      JoinPlain(Code(r, k).code, [Mov(R1, l.value)]);
    } else {
      var w := Code(r, k);
      var v := Code(l, w.next);
      CodeFresh(r, k);
      CodeFresh(l, w.next);
      if ValueIsSimple(l) {
        AroundFresh(w.code, Movr(R1, R0), v.code, k, w.next, v.next);
      } else {
        AroundFresh(w.code, Push(R0), v.code, k, w.next, v.next);
        JoinPlain(w.code + [Push(R0)] + v.code, [Pop(R1)]);
      }
    }
  }

  lemma CompareFresh(op: BinOp, a: seq<Instr>, lo: nat, k: nat)
    requires Fresh(a, lo, k) && IsCompare(op)
    ensures Fresh(a + OperatorCode(op, k), lo, k + 2)
  {
    var t := [Cmp(R0, R1), Jcc(CondOf(op), k)];
    PlainIds(t);
    SetIds(0, 1, k);
    JoinIds(t, SetCode(0, 1, k, k + 1));
    JoinIds(a, OperatorCode(op, k));
  }

  lemma OperatorFresh(op: BinOp, a: seq<Instr>, lo: nat, k: nat)
    requires Fresh(a, lo, k)
    ensures Fresh(a + OperatorCode(op, k), lo, if IsCompare(op) then k + 2 else k)
  {
    if IsCompare(op) {
      CompareFresh(op, a, lo, k);
    } else {
      JoinPlain(a, OperatorCode(op, k));
    }
  }

  /** Compiler correctness for expressions. Started at the first line of its code, with room for its
      temporaries, a machine that agrees with the store runs to just past the last line; R0 then
      holds the value, registers R2 to R4 and memory outside the scratch stretch hold the updated
      store, and the stack pointer, R5, R6 and the stack above it are as they were. */
  lemma ExpressionCorrect(e: Expr, k: nat, c: Core, s: Store, env: Env) returns (c': Core)
    requires Matches(c, s, env) && Fits(c, env, Depth(e)) && Eval(e, env, s).Result?
    ensures var code, o := Code(e, k).code, Eval(e, env, s);
      && Runs(Program(code, env.cell), 0, c, |code|, c')
      && c'.regs.r0 == o.value
      && c'.regs.r2 == o.store.p2 && c'.regs.r3 == o.store.p3 && c'.regs.r4 == o.store.p4
      && c'.sp == c.sp && c'.regs.r5 == c.regs.r5 && c'.regs.r6 == c.regs.r6
      && SameOutside(c'.mem, o.store.mem, env.low, env.high)
      && SameWithin(c.mem, c'.mem, c.sp, env.high)
  {
    CodeFresh(e, k);
    c' := ExprRuns(Program(Code(e, k).code, env.cell), 0, e, k, c, s, env);
  }
}
