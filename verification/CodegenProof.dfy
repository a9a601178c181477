/** Semantic preservation for compiled expressions. */
module CodegenProof {
  import opened Bytes
  import opened Words
  import opened Int64
  import opened Machine
  import opened Codegen
  import opened Folding

  // ---- code in place ----

  ghost predicate At(p: Program, i: nat, code: seq<Instr>) {
    i + |code| <= |p.code| && forall j :: 0 <= j < |code| ==> p.code[i + j] == code[j]
  }

  /** Labels are unique, and the word to leave alone is the environment's. */
  ghost predicate Ready(p: Program, env: Env) { Unique(p.code) && p.cell == env.cell }

  ghost predicate Unique(code: seq<Instr>) {
    forall i, j :: 0 <= i < |code| && 0 <= j < |code| && code[i].Label? && code[i] == code[j] ==> i == j
  }

  lemma AtSplit(p: Program, i: nat, a: seq<Instr>, b: seq<Instr>)
    requires At(p, i, a + b)
    ensures At(p, i, a) && At(p, i + |a|, b)
  {
    forall j | 0 <= j < |a| ensures p.code[i + j] == a[j] { assert (a + b)[j] == a[j]; }
    forall j | 0 <= j < |b| ensures p.code[i + |a| + j] == b[j] { assert (a + b)[|a| + j] == b[j]; }
  }

  lemma AtLine(p: Program, i: nat, code: seq<Instr>, j: nat)
    requires At(p, i, code) && j < |code|
    ensures p.code[i + j] == code[j]
  {
  }

  // ---- single lines ----

  lemma Go(p: Program, i: nat, c: Core, c': Core)
    requires i < |p.code| && Exec(p.code[i], c) == Some(c') && KeepsOff(p.code[i], c, p.cell)
    ensures Runs(p, i, c, i + 1, c')
  {
    RunsStep(p, i, c, i + 1, c');
  }

  lemma Go2(p: Program, i: nat, a: Instr, b: Instr, c: Core, c1: Core, c2: Core)
    requires At(p, i, [a, b]) && Exec(a, c) == Some(c1) && Exec(b, c1) == Some(c2) && KeepsOff(a, c, p.cell)
      && KeepsOff(b, c1, p.cell)
    ensures Runs(p, i, c, i + 2, c2)
  {
    AtLine(p, i, [a, b], 0); AtLine(p, i, [a, b], 1);
    Go(p, i, c, c1); Go(p, i + 1, c1, c2);
    RunsTrans(p, i, c, i + 1, c1, i + 2, c2);
  }

  lemma Go1(p: Program, i: nat, a: Instr, c: Core, c1: Core)
    requires At(p, i, [a]) && Exec(a, c) == Some(c1) && KeepsOff(a, c, p.cell)
    ensures Runs(p, i, c, i + 1, c1)
  {
    AtLine(p, i, [a], 0);
    Go(p, i, c, c1);
  }

  lemma {:induction false} FindUnique(p: Program, id: nat, t: nat)
    requires Unique(p.code) && t < |p.code| && p.code[t] == Label(id)
    ensures Find(p.code, id) == t && Label(id) in p.code
  {
    assert p.code[Find(p.code, id)] == Label(id);
  }

  lemma GoTo(p: Program, i: nat, c: Core, id: nat, t: nat)
    requires Unique(p.code) && i < |p.code| && p.code[i] == Jmp(id) && t < |p.code| && p.code[t] == Label(id)
    ensures Runs(p, i, c, t, c)
  {
    FindUnique(p, id, t);
    RunsStep(p, i, c, t, c);
  }

  lemma Branch(p: Program, i: nat, c: Core, cond: Cond, id: nat, t: nat)
    requires Unique(p.code) && i < |p.code| && p.code[i] == Jcc(cond, id) && t < |p.code| && p.code[t] == Label(id)
    ensures Runs(p, i, c, if Holds(cond, c.flags) then t else i + 1, c)
  {
    FindUnique(p, id, t);
    RunsStep(p, i, c, if Holds(cond, c.flags) then t else i + 1, c);
  }

  // ---- memory ----

  ghost predicate SameOutside(m: seq<u8>, m': seq<u8>, low: int, high: int) {
    |m| == |m'| && forall a :: 0 <= a < |m| && !(low <= a < high) ==> m[a] == m'[a]
  }

  ghost predicate SameWithin(m: seq<u8>, m': seq<u8>, low: int, high: int) {
    |m| == |m'| && forall a :: 0 <= a < |m| && low <= a < high ==> m[a] == m'[a]
  }

  lemma WriteOutside(m: seq<u8>, m': seq<u8>, env: Env, a: int, v: u32)
    requires SameOutside(m, m', env.low, env.high) && Accessible(env, m', a)
    ensures SameOutside(Write32(m, a, v), Write32(m', a, v), env.low, env.high)
    ensures SameWithin(m, Write32(m, a, v), env.low, env.high)
  {
    WriteRead(m, a, v); WriteRead(m', a, v);
  }

  lemma ReadOutside(m: seq<u8>, m': seq<u8>, env: Env, a: int)
    requires SameOutside(m, m', env.low, env.high) && Accessible(env, m', a)
    ensures InRange(m, a) && Read32(m, a) == Read32(m', a)
  {}

  // ---- what running code for an expression must establish ----

  ghost predicate Matches(c: Core, s: Store, env: Env) {
    && c.regs.r2 == s.p2 && c.regs.r3 == s.p3 && c.regs.r4 == s.p4
    && c.regs.r6 == env.base
    && SameOutside(c.mem, s.mem, env.low, env.high)
  }

  /** There is room for d temporaries below the stack pointer, apart from the word to leave alone. */
  ghost predicate Fits(c: Core, env: Env, d: nat) {
    && 0 <= env.low && env.low + 4 * d <= c.sp <= env.high && env.high <= |c.mem|
    && (env.cell + 4 <= env.low || env.high <= env.cell)
  }

  /** The value is in R0, the store is updated, SP, R5 and R6 and the temporaries on the
      stack are as before; a simple expression leaves R1 alone as well. */
  ghost predicate Done(c: Core, c': Core, o: Outcome, env: Env, simple: bool) {
    && o.Result?
    && c'.regs.r0 == o.value && Matches(c', o.store, env)
    && c'.sp == c.sp && c'.regs.r5 == c.regs.r5
    && SameWithin(c.mem, c'.mem, c.sp, env.high)
    && (simple ==> c'.regs.r1 == c.regs.r1)
  }

  /** The most temporaries on the hardware stack at once. */
  function Depth(e: Expr): nat
    decreases e
  {
    match e
    case Num(_) => 0
    case RegVar(_) => 0
    case Value(pl) => PlaceDepth(pl)
    case AddressOf(pl) => PlaceDepth(pl)
    case AssignReg(_, rhs) => Depth(rhs)
    case Assign(pl, rhs) => Max(PlaceDepth(pl), if ValueIsSimple(rhs) then Depth(rhs) else Depth(rhs) + 1)
    case Neg(x) => Depth(x)
    case Not(x) => Depth(x)
    case LogAnd(l, r) => Max(Depth(l), Depth(r))
    case LogOr(l, r) => Max(Depth(l), Depth(r))
    case Conditional(c, t, f) => Max(Depth(c), Max(Depth(t), Depth(f)))
    case Comma(l, r) => Max(Depth(l), Depth(r))
    case Bin(op, l, r) =>
      if IsConst(r) then Depth(l)
      else if IsConst(l) && Commutative(op) then Depth(r)
      else if ValueIsSimple(l) then Max(Depth(l), Depth(r))
      else Max(Depth(l) + 1, Depth(r))
  }

  function PlaceDepth(pl: Place): nat
    decreases pl
  {
    match pl
    case Local(_) => 0
    case Global(_) => 0
    case At(p) => Depth(p)
    case Member(b, _) => PlaceDepth(b)
  }

  function Max(a: nat, b: nat): nat { if a >= b then a else b }

  // ---- what each fragment of code does ----

  lemma OffsetRuns(p: Program, i: nat, off: int, c: Core, o: Outcome, env: Env) returns (c': Core)
    requires At(p, i, OffsetCode(off)) && Done(c, c, o, env, true)
    ensures Runs(p, i, c, i + |OffsetCode(off)|, c')
    ensures Done(c, c', Result(Wrap32(o.value + off), o.store), env, true)
  {
    c' := c;
    if off > 0 {
      var c1 := c.(regs := Set(c.regs, R7, Wrap32(off)));
      c' := Exec(Op(ADD, R0, R7), c1).value;
      Go2(p, i, Mov(R7, Wrap32(off)), Op(ADD, R0, R7), c, c1, c');
      WrapSum(o.value, off);
    } else if off < 0 {
      var c1 := c.(regs := Set(c.regs, R7, Wrap32(-off)));
      c' := Exec(Op(SUB, R0, R7), c1).value;
      Go2(p, i, Mov(R7, Wrap32(-off)), Op(SUB, R0, R7), c, c1, c');
      WrapSum(o.value, -off);
    } else {
      RunsNot(p, i, c);
    }
  }

  lemma WrapSum(a: int, b: int)
    ensures Wrap32(a + Wrap32(b)) == Wrap32(a + b) && Wrap32(a - Wrap32(b)) == Wrap32(a - b)
  {}

  lemma LoadRuns(p: Program, i: nat, c0: Core, c: Core, o: Outcome, env: Env, simple: bool) returns (c': Core)
    requires p.cell == env.cell && At(p, i, [Loadr(R0, R0)]) && Done(c0, c, o, env, simple)
      && Accessible(env, o.store.mem, o.value)
    ensures Runs(p, i, c, i + 1, c')
    ensures Done(c0, c', Result(Read32(o.store.mem, o.value), o.store), env, simple)
  {
    ReadOutside(c.mem, o.store.mem, env, o.value);
    c' := c.(regs := Set(c.regs, R0, Read32(c.mem, o.value)));
    Go1(p, i, Loadr(R0, R0), c, c');
  }

  /** Storing through R1. */
  lemma StoreRuns(p: Program, i: nat, c0: Core, c: Core, a: u32, o: Outcome, env: Env) returns (c': Core)
    requires p.cell == env.cell && At(p, i, [Storer(R1, R0)]) && Done(c0, c, o, env, false) && c.regs.r1 == a
    requires Accessible(env, o.store.mem, a) && env.low <= c0.sp
    ensures Runs(p, i, c, i + 1, c')
    ensures Done(c0, c', Result(o.value, o.store.(mem := Write32(o.store.mem, a, o.value))), env, false)
  {
    WriteOutside(c.mem, o.store.mem, env, a, o.value);
    c' := c.(mem := Write32(c.mem, a, o.value));
    Go1(p, i, Storer(R1, R0), c, c');
  }

  /** A temporary pushed stays put while the code between push and pop runs. */
  lemma PushRuns(p: Program, i: nat, c: Core, s: Store, env: Env, d: nat) returns (c': Core)
    requires p.cell == env.cell && At(p, i, [Push(R0)]) && Matches(c, s, env) && Fits(c, env, d + 1)
    ensures Runs(p, i, c, i + 1, c')
    ensures Matches(c', s, env) && Fits(c', env, d)
    ensures c'.regs == c.regs && c'.sp == c.sp - 4 && InRange(c'.mem, c'.sp) && Read32(c'.mem, c'.sp) == c.regs.r0
    ensures SameWithin(c.mem, c'.mem, c.sp, env.high)
  {
    c' := c.(sp := c.sp - 4, mem := Write32(c.mem, c.sp - 4, c.regs.r0));
    WriteRead(c.mem, c.sp - 4, c.regs.r0);
    Go1(p, i, Push(R0), c, c');
  }

  lemma PopRuns(p: Program, i: nat, c0: Core, c1: Core, c2: Core, o: Outcome, env: Env) returns (c': Core)
    requires p.cell == env.cell && At(p, i, [Pop(R1)]) && Done(c1, c2, o, env, false) && Fits(c1, env, 0)
    requires c1.sp == c0.sp - 4 && InRange(c1.mem, c1.sp) && c0.sp <= env.high
    requires c1.regs.r5 == c0.regs.r5 && SameWithin(c0.mem, c1.mem, c0.sp, env.high)
    ensures Runs(p, i, c2, i + 1, c')
    ensures c'.regs.r1 == Read32(c1.mem, c1.sp) && Done(c0, c', o, env, false)
  {
    assert Read32(c2.mem, c1.sp) == Read32(c1.mem, c1.sp);
    c' := c2.(sp := c2.sp + 4, regs := Set(c2.regs, R1, Read32(c2.mem, c2.sp)));
    Go1(p, i, Pop(R1), c2, c');
  }

  lemma NegRuns(p: Program, i: nat, c0: Core, c: Core, o: Outcome, env: Env) returns (c': Core)
    requires At(p, i, [Mov(R1, 0), Op(SUB, R1, R0), Movr(R0, R1)]) && Done(c0, c, o, env, false)
    ensures Runs(p, i, c, i + 3, c')
    ensures Done(c0, c', Result(Wrap32(-AsInt(o.value)), o.store), env, false)
  {
    assert [Mov(R1, 0), Op(SUB, R1, R0)] + [Movr(R0, R1)] == [Mov(R1, 0), Op(SUB, R1, R0), Movr(R0, R1)];
    AtSplit(p, i, [Mov(R1, 0), Op(SUB, R1, R0)], [Movr(R0, R1)]);
    var c1 := c.(regs := Set(c.regs, R1, 0));
    var c2 := Exec(Op(SUB, R1, R0), c1).value;
    Go2(p, i, Mov(R1, 0), Op(SUB, R1, R0), c, c1, c2);
    c' := c2.(regs := Set(c2.regs, R0, c2.regs.r1));
    Go1(p, i + 2, Movr(R0, R1), c2, c');
    RunsTrans(p, i, c, i + 2, c2, i + 3, c');
  }

  /** Comparing R0 with zero and branching; t is where the target label stands. */
  lemma TestRuns(p: Program, i: nat, cond: Cond, id: nat, t: nat, c0: Core, c: Core, o: Outcome,
                 env: Env) returns (c': Core)
    requires Ready(p, env) && At(p, i, TestCode(cond, id)) && t < |p.code| && p.code[t] == Label(id)
    requires (cond == Z || cond == NZ) && Done(c0, c, o, env, false)
    ensures Runs(p, i, c, if (cond == Z) == (o.value == 0) then t else i + 3, c')
    ensures Done(c0, c', o, env, false)
  {
    assert [Mov(R7, 0), Cmp(R0, R7)] + [Jcc(cond, id)] == TestCode(cond, id);
    AtSplit(p, i, [Mov(R7, 0), Cmp(R0, R7)], [Jcc(cond, id)]);
    AtLine(p, i + 2, [Jcc(cond, id)], 0);
    var c1 := c.(regs := Set(c.regs, R7, 0));
    c' := c1.(flags := SubFlags(c1.regs.r0, 0));
    Go2(p, i, Mov(R7, 0), Cmp(R0, R7), c, c1, c');
    FlagsCompare(o.value, 0);
    Branch(p, i + 2, c', cond, id, t);
    RunsTrans(p, i, c, i + 2, c', if (cond == Z) == (o.value == 0) then t else i + 3, c');
  }

  /** Entering the value-setting tail at its start gives v, entering it at its label gives w. */
  lemma SetRuns(p: Program, i: nat, v: u32, w: u32, hit: nat, done: nat, landed: bool, c0: Core, c: Core, o: Outcome,
                env: Env)
    returns (c': Core)
    requires Ready(p, env) && At(p, i, SetCode(v, w, hit, done)) && Done(c0, c, o, env, false)
    ensures Runs(p, if landed then i + 2 else i, c, i + 5, c')
    ensures Done(c0, c', Result(if landed then w else v, o.store), env, false)
  {
    var code := SetCode(v, w, hit, done);
    AtLine(p, i, code, 0); AtLine(p, i, code, 1); AtLine(p, i, code, 2); AtLine(p, i, code, 3); AtLine(p, i, code, 4);
    if landed {
      c' := c.(regs := Set(c.regs, R0, w));
      Go(p, i + 2, c, c);
      Go(p, i + 3, c, c');
      RunsTrans(p, i + 2, c, i + 3, c, i + 4, c');
      Go(p, i + 4, c', c');
      RunsTrans(p, i + 2, c, i + 4, c', i + 5, c');
    } else {
      c' := c.(regs := Set(c.regs, R0, v));
      Go(p, i, c, c');
      GoTo(p, i + 1, c', done, i + 4);
      RunsTrans(p, i, c, i + 1, c', i + 4, c');
      Go(p, i + 4, c', c');
      RunsTrans(p, i, c, i + 4, c', i + 5, c');
    }
  }

  // ---- operators ----

  lemma MulWraps(a: u32, b: u32)
    ensures Wrap32(AsInt(a) * AsInt(b)) == Wrap32(a * b)
  {
    var i, j := if Negative(a) then 1 else 0, if Negative(b) then 1 else 0;
    var x, y := AsInt(a), AsInt(b);
    assert x == a - i * 0x1_0000_0000 && y == b - j * 0x1_0000_0000;
    MulDistrib(a, i * 0x1_0000_0000, y);
    MulDistrib(b, j * 0x1_0000_0000, a);
    MulAssoc(i, 0x1_0000_0000, y); MulComm(0x1_0000_0000, y); MulAssoc(i, y, 0x1_0000_0000);
    MulAssoc(j, 0x1_0000_0000, a); MulComm(0x1_0000_0000, a); MulAssoc(j, a, 0x1_0000_0000);
    MulComm(a, y); MulComm(a, b);
    var k := -(i * y) - j * a;
    assert x * y == a * b + k * 0x1_0000_0000;
    ModMultiple(a * b, k, 0x1_0000_0000);
  }

  /** The machine's unsigned arithmetic is the source's signed arithmetic. */
  lemma AluMeans(op: BinOp, a: u32, b: u32)
    requires !IsCompare(op)
    ensures AluResult(AluOf(op), a, b) == EvalBin(op, a, b)
  {
    match op
    case Add => SignedWraps(a, b);
    case Sub => SignedWraps(a, b);
    case Mul => MulWraps(a, b);
    case _ =>
  }

  lemma SignedWraps(a: u32, b: u32)
    ensures Wrap32(AsInt(a) + AsInt(b)) == Wrap32(a + b) && Wrap32(AsInt(a) - AsInt(b)) == Wrap32(a - b)
  {
  }

  lemma {:induction false} BitsCommute(a: nat, b: nat)
    ensures And(a, b) == And(b, a) && Or(a, b) == Or(b, a) && Xor(a, b) == Xor(b, a)
  {
    if a != 0 && b != 0 { BitsCommute(a / 2, b / 2); }
  }

  lemma EvalCommutes(op: BinOp, a: u32, b: u32)
    requires Commutative(op)
    ensures EvalBin(op, a, b) == EvalBin(op, b, a)
  {
    BitsCommute(a, b);
    MulComm(AsInt(a), AsInt(b));
  }

  /** The operator applied to R0 and R1. */
  lemma OperatorRuns(p: Program, i: nat, op: BinOp, k: nat, c0: Core, c: Core, o: Outcome, x: u32,
                     env: Env) returns (c': Core)
    requires Ready(p, env) && At(p, i, OperatorCode(op, k)) && Done(c0, c, o, env, false)
    requires EvalBin(op, o.value, c.regs.r1) == Some(x)
    ensures Runs(p, i, c, i + |OperatorCode(op, k)|, c') && Done(c0, c', Result(x, o.store), env, false)
  {
    if IsCompare(op) {
      c' := CompareRuns(p, i, op, k, c0, c, o, env);
    } else {
      AluMeans(op, o.value, c.regs.r1);
      c' := Exec(Op(AluOf(op), R0, R1), c).value;
      Go1(p, i, Op(AluOf(op), R0, R1), c, c');
    }
  }

  lemma CompareRuns(p: Program, i: nat, op: BinOp, k: nat, c0: Core, c: Core, o: Outcome, env: Env) returns (c': Core)
    requires Ready(p, env) && IsCompare(op) && At(p, i, OperatorCode(op, k)) && Done(c0, c, o, env, false)
    ensures Runs(p, i, c, i + |OperatorCode(op, k)|, c')
    ensures Done(c0, c', Result(EvalBin(op, o.value, c.regs.r1).value, o.store), env, false)
  {
    var a, b := o.value, c.regs.r1;
    AtSplit(p, i, [Cmp(R0, R1), Jcc(CondOf(op), k)], SetCode(0, 1, k, k + 1));
    AtLine(p, i, [Cmp(R0, R1), Jcc(CondOf(op), k)], 0); AtLine(p, i, [Cmp(R0, R1), Jcc(CondOf(op), k)], 1);
    AtLine(p, i + 2, SetCode(0, 1, k, k + 1), 2);
    var c1 := c.(flags := SubFlags(a, b));
    Go(p, i, c, c1);
    Branch(p, i + 1, c1, CondOf(op), k, i + 4);
    FlagsCompare(a, b);
    var taken := Holds(CondOf(op), c1.flags);
    c' := SetRuns(p, i + 2, 0, 1, k, k + 1, taken, c0, c1, o, env);
    RunsTrans(p, i, c, i + 1, c1, if taken then i + 4 else i + 2, c1);
    RunsTrans(p, i, c, if taken then i + 4 else i + 2, c1, i + 7, c');
  }

  // ---- composition ----

  lemma DoneThen(c0: Core, c1: Core, c2: Core, o1: Outcome, o2: Outcome, env: Env)
    requires Done(c0, c1, o1, env, false) && Done(c1, c2, o2, env, false)
    ensures Done(c0, c2, o2, env, false)
  {}

  /** Running the code of an expression computes its value and its effects, whatever the fast path. */
  lemma {:induction false} ExprRuns(p: Program, i: nat, e: Expr, k: nat, c: Core, s: Store, env: Env) returns (c': Core)
    requires Ready(p, env) && At(p, i, Code(e, k).code)
    requires Matches(c, s, env) && Fits(c, env, Depth(e)) && Eval(e, env, s).Result?
    ensures Runs(p, i, c, i + |Code(e, k).code|, c')
    ensures Done(c, c', Eval(e, env, s), env, ValueIsSimple(e))
    decreases e, 3
  {
    match e
    case Num(v) =>
      c' := c.(regs := Set(c.regs, R0, v));
      Go1(p, i, Mov(R0, v), c, c');
    case RegVar(r) =>
      c' := c.(regs := Set(c.regs, R0, Get(c.regs, RegOf(r))));
      Go1(p, i, Movr(R0, RegOf(r)), c, c');
    case AddressOf(pl) => c' := PlaceRuns(p, i, pl, k, c, s, env);
    case Value(_) => c' := ValueRuns(p, i, e, k, c, s, env);
    case AssignReg(_, _) => c' := AssignRegRuns(p, i, e, k, c, s, env);
    case Assign(_, rhs) =>
      if ValueIsSimple(rhs) { c' := AssignSimpleRuns(p, i, e, k, c, s, env); } else {
        c' := AssignRuns(p, i, e, k, c, s, env);
      }
    case Neg(_) => c' := NegExprRuns(p, i, e, k, c, s, env);
    case Not(_) => c' := NotRuns(p, i, e, k, c, s, env);
    case LogAnd(_, _) => c' := LogicalRuns(p, i, e, k, c, s, env);
    case LogOr(_, _) => c' := LogicalRuns(p, i, e, k, c, s, env);
    case Conditional(_, _, _) => c' := ConditionalRuns(p, i, e, k, c, s, env);
    case Comma(_, _) => c' := CommaRuns(p, i, e, k, c, s, env);
    case Bin(_, _, _) => c' := BinRuns(p, i, e, k, c, s, env);
  }

  lemma {:induction false} ValueRuns(p: Program, i: nat, e: Expr, k: nat, c: Core, s: Store,
                                     env: Env) returns (c': Core)
    requires e.Value? && Ready(p, env) && At(p, i, Code(e, k).code)
    requires Matches(c, s, env) && Fits(c, env, Depth(e)) && Eval(e, env, s).Result?
    ensures Runs(p, i, c, i + |Code(e, k).code|, c') && Done(c, c', Eval(e, env, s), env, ValueIsSimple(e))
    decreases e, 2
  {
    var a := AddressCode(e.place, k);
    AtSplit(p, i, a.code, [Loadr(R0, R0)]);
    var c1 := PlaceRuns(p, i, e.place, k, c, s, env);
    c' := LoadRuns(p, i + |a.code|, c, c1, Locate(e.place, env, s), env, ValueIsSimple(e));
    RunsTrans(p, i, c, i + |a.code|, c1, i + |a.code| + 1, c');
  }

  lemma {:induction false} AssignRegRuns(p: Program, i: nat, e: Expr, k: nat, c: Core, s: Store,
                                         env: Env) returns (c': Core)
    requires e.AssignReg? && Ready(p, env) && At(p, i, Code(e, k).code)
    requires Matches(c, s, env) && Fits(c, env, Depth(e)) && Eval(e, env, s).Result?
    ensures Runs(p, i, c, i + |Code(e, k).code|, c') && Done(c, c', Eval(e, env, s), env, false)
    decreases e, 2
  {
    var v, r := Code(e.rhs, k), RegOf(e.reg);
    AtSplit(p, i, v.code, [Movr(r, R0)]);
    var c1 := ExprRuns(p, i, e.rhs, k, c, s, env);
    c' := c1.(regs := Set(c1.regs, r, c1.regs.r0));
    Go1(p, i + |v.code|, Movr(r, R0), c1, c');
    RunsTrans(p, i, c, i + |v.code|, c1, i + |v.code| + 1, c');
  }

  lemma {:induction false} NegExprRuns(p: Program, i: nat, e: Expr, k: nat, c: Core, s: Store,
                                       env: Env) returns (c': Core)
    requires e.Neg? && Ready(p, env) && At(p, i, Code(e, k).code)
    requires Matches(c, s, env) && Fits(c, env, Depth(e)) && Eval(e, env, s).Result?
    ensures Runs(p, i, c, i + |Code(e, k).code|, c') && Done(c, c', Eval(e, env, s), env, false)
    decreases e, 2
  {
    var v := Code(e.operand, k);
    AtSplit(p, i, v.code, [Mov(R1, 0), Op(SUB, R1, R0), Movr(R0, R1)]);
    var c1 := ExprRuns(p, i, e.operand, k, c, s, env);
    c' := NegRuns(p, i + |v.code|, c, c1, Eval(e.operand, env, s), env);
    RunsTrans(p, i, c, i + |v.code|, c1, i + |v.code| + 3, c');
  }

  lemma {:induction false} CommaRuns(p: Program, i: nat, e: Expr, k: nat, c: Core, s: Store,
                                     env: Env) returns (c': Core)
    requires e.Comma? && Ready(p, env) && At(p, i, Code(e, k).code)
    requires Matches(c, s, env) && Fits(c, env, Depth(e)) && Eval(e, env, s).Result?
    ensures Runs(p, i, c, i + |Code(e, k).code|, c') && Done(c, c', Eval(e, env, s), env, false)
    decreases e, 2
  {
    var v := Code(e.left, k);
    AtSplit(p, i, v.code, Code(e.right, v.next).code);
    var c1 := ExprRuns(p, i, e.left, k, c, s, env);
    c' := ExprRuns(p, i + |v.code|, e.right, v.next, c1, Eval(e.left, env, s).store, env);
    RunsTrans(p, i, c, i + |v.code|, c1, i + |Code(e, k).code|, c');
    DoneThen(c, c1, c', Eval(e.left, env, s), Eval(e, env, s), env);
  }

  lemma {:induction false} BinRuns(p: Program, i: nat, e: Expr, k: nat, c: Core, s: Store, env: Env) returns (c': Core)
    requires e.Bin? && Ready(p, env) && At(p, i, Code(e, k).code)
    requires Matches(c, s, env) && Fits(c, env, Depth(e)) && Eval(e, env, s).Result?
    ensures Runs(p, i, c, i + |Code(e, k).code|, c') && Done(c, c', Eval(e, env, s), env, false)
    decreases e, 2
  {
    var o := OperandCode(e, k);
    AtSplit(p, i, o.code, OperatorCode(e.op, o.next));
    var c1 := OperandsRun(p, i, e, k, c, s, env);
    var store := Eval(e.left, env, Eval(e.right, env, s).store).store;
    c' := OperatorRuns(p, i + |o.code|, e.op, o.next, c, c1, Result(c1.regs.r0, store), Eval(e, env, s).value, env);
    RunsTrans(p, i, c, i + |o.code|, c1, i + |Code(e, k).code|, c');
  }

  lemma {:induction false} PlaceRuns(p: Program, i: nat, pl: Place, k: nat, c: Core, s: Store,
                                     env: Env) returns (c': Core)
    requires Ready(p, env) && At(p, i, AddressCode(pl, k).code)
    requires Matches(c, s, env) && Fits(c, env, PlaceDepth(pl)) && Locate(pl, env, s).Result?
    ensures Runs(p, i, c, i + |AddressCode(pl, k).code|, c')
    ensures Done(c, c', Locate(pl, env, s), env, AddrIsSimple(pl))
    decreases pl, 3
  {
    match pl
    case Local(off) =>
      AtSplit(p, i, [Movr(R0, R6)], OffsetCode(off));
      var c1 := c.(regs := Set(c.regs, R0, c.regs.r6));
      Go1(p, i, Movr(R0, R6), c, c1);
      c' := OffsetRuns(p, i + 1, off, c1, Result(env.base, s), env);
      RunsTrans(p, i, c, i + 1, c1, i + 1 + |OffsetCode(off)|, c');
    case Global(a) =>
      c' := c.(regs := Set(c.regs, R0, a));
      Go1(p, i, Mov(R0, a), c, c');
    case At(q) =>
      c' := ExprRuns(p, i, q, k, c, s, env);
    case Member(b, at) =>
      var a := AddressCode(b, k);
      AtSplit(p, i, a.code, OffsetCode(at));
      var c1 := PlaceRuns(p, i, b, k, c, s, env);
      c' := OffsetRuns(p, i + |a.code|, at, c1, Locate(b, env, s), env);
      RunsTrans(p, i, c, i + |a.code|, c1, i + |a.code| + |OffsetCode(at)|, c');
  }

  lemma {:induction false} AssignSimpleRuns(p: Program, i: nat, e: Expr, k: nat, c: Core, s: Store,
                                            env: Env) returns (c': Core)
    requires e.Assign? && ValueIsSimple(e.rhs) && Ready(p, env) && At(p, i, Code(e, k).code)
    requires Matches(c, s, env) && Fits(c, env, Depth(e)) && Eval(e, env, s).Result?
    ensures Runs(p, i, c, i + |Code(e, k).code|, c') && Done(c, c', Eval(e, env, s), env, false)
    decreases e, 2
  {
    var a := AddressCode(e.place, k);
    var v := Code(e.rhs, a.next);
    AtSplit(p, i, a.code + [Movr(R1, R0)] + v.code, [Storer(R1, R0)]);
    AtSplit(p, i, a.code + [Movr(R1, R0)], v.code);
    AtSplit(p, i, a.code, [Movr(R1, R0)]);
    var i1, j := i + |a.code|, i + |a.code| + 1 + |v.code|;
    var o := Locate(e.place, env, s);
    var c1 := PlaceRuns(p, i, e.place, k, c, s, env);
    var c2 := c1.(regs := Set(c1.regs, R1, c1.regs.r0));
    Go1(p, i1, Movr(R1, R0), c1, c2);
    RunsTrans(p, i, c, i1, c1, i1 + 1, c2);
    var c3 := ExprRuns(p, i1 + 1, e.rhs, a.next, c2, o.store, env);
    RunsTrans(p, i, c, i1 + 1, c2, j, c3);
    DoneThen(c, c2, c3, o, Eval(e.rhs, env, o.store), env);
    c' := StoreRuns(p, j, c, c3, o.value, Eval(e.rhs, env, o.store), env);
    RunsTrans(p, i, c, j, c3, j + 1, c');
  }

  lemma {:induction false} AssignRuns(p: Program, i: nat, e: Expr, k: nat, c: Core, s: Store,
                                      env: Env) returns (c': Core)
    requires e.Assign? && !ValueIsSimple(e.rhs) && Ready(p, env) && At(p, i, Code(e, k).code)
    requires Matches(c, s, env) && Fits(c, env, Depth(e)) && Eval(e, env, s).Result?
    ensures Runs(p, i, c, i + |Code(e, k).code|, c') && Done(c, c', Eval(e, env, s), env, false)
    decreases e, 2
  {
    var a := AddressCode(e.place, k);
    var v := Code(e.rhs, a.next);
    var j := i + |a.code| + 2 + |v.code|;
    AssignLayout(p, i, a.code, v.code);
    var o := Locate(e.place, env, s);
    var c4 := AssignOperandsRun(p, i, e, k, c, s, env);
    c' := StoreRuns(p, j, c, c4, o.value, Eval(e.rhs, env, o.store), env);
    RunsTrans(p, i, c, j, c4, j + 1, c');
  }

  /** The address of an assignment waits on the stack while its value is computed. */
  lemma {:induction false} AssignOperandsRun(p: Program, i: nat, e: Expr, k: nat, c: Core, s: Store,
                                             env: Env) returns (c': Core)
    requires e.Assign? && Ready(p, env)
    requires var a := AddressCode(e.place, k);
      var i1, v := i + |a.code|, Code(e.rhs, a.next).code;
      At(p, i, a.code) && At(p, i1, [Push(R0)]) && At(p, i1 + 1, v) && At(p, i1 + 1 + |v|, [Pop(R1)])
    requires Matches(c, s, env) && Fits(c, env, PlaceDepth(e.place)) && Fits(c, env, Depth(e.rhs) + 1)
    requires Locate(e.place, env, s).Result? && Eval(e.rhs, env, Locate(e.place, env, s).store).Result?
    ensures var a, o := AddressCode(e.place, k), Locate(e.place, env, s);
      && Runs(p, i, c, i + |a.code| + 2 + |Code(e.rhs, a.next).code|, c')
      && Done(c, c', Eval(e.rhs, env, o.store), env, false) && c'.regs.r1 == o.value
    decreases e, 1
  {
    var a, o := AddressCode(e.place, k), Locate(e.place, env, s);
    var i1, j := i + |a.code|, i + |a.code| + 2 + |Code(e.rhs, a.next).code|;
    var c1 := PlaceRuns(p, i, e.place, k, c, s, env);
    c' := SavedRuns(p, i1, e.rhs, a.next, c1, o.store, env);
    RunsTrans(p, i, c, i1, c1, j, c');
    DoneThen(c, c1, c', o, Eval(e.rhs, env, o.store), env);
  }

  lemma AssignLayout(p: Program, i: nat, a: seq<Instr>, v: seq<Instr>)
    requires At(p, i, a + [Push(R0)] + v + [Pop(R1), Storer(R1, R0)])
    ensures At(p, i, a) && At(p, i + |a|, [Push(R0)]) && At(p, i + |a| + 1, v)
    ensures At(p, i + |a| + 1 + |v|, [Pop(R1)]) && At(p, i + |a| + 1 + |v| + 1, [Storer(R1, R0)])
  {
    AtSplit(p, i, a + [Push(R0)] + v, [Pop(R1), Storer(R1, R0)]);
    AtSplit(p, i, a + [Push(R0)], v);
    AtSplit(p, i, a, [Push(R0)]);
    assert [Pop(R1)] + [Storer(R1, R0)] == [Pop(R1), Storer(R1, R0)];
    AtSplit(p, i + |a| + 1 + |v|, [Pop(R1)], [Storer(R1, R0)]);
  }

  /** R0 saved on the hardware stack around the code of another expression, and restored into R1. */
  lemma {:induction false} SavedRuns(p: Program, i: nat, e: Expr, k: nat, c: Core, s: Store,
                                     env: Env) returns (c': Core)
    requires Ready(p, env) && At(p, i, [Push(R0)]) && At(p, i + 1, Code(e, k).code)
    requires At(p, i + 1 + |Code(e, k).code|, [Pop(R1)])
    requires Matches(c, s, env) && Fits(c, env, Depth(e) + 1) && Eval(e, env, s).Result?
    ensures Runs(p, i, c, i + 2 + |Code(e, k).code|, c')
    ensures Done(c, c', Eval(e, env, s), env, false) && c'.regs.r1 == c.regs.r0
    decreases e, 4
  {
    var j := i + 1 + |Code(e, k).code|;
    var c1 := PushRuns(p, i, c, s, env, Depth(e));
    var c2 := ExprRuns(p, i + 1, e, k, c1, s, env);
    RunsTrans(p, i, c, i + 1, c1, j, c2);
    c' := PopRuns(p, j, c, c1, c2, Eval(e, env, s), env);
    RunsTrans(p, i, c, j, c2, j + 1, c');
  }

  /** Both operands in place: R0 and R1 give the operator the same result as left and right. */
  lemma {:induction false} OperandsRun(p: Program, i: nat, e: Expr, k: nat, c: Core, s: Store,
                                       env: Env) returns (c': Core)
    requires e.Bin? && Ready(p, env) && At(p, i, OperandCode(e, k).code)
    requires Matches(c, s, env) && Fits(c, env, Depth(e)) && Eval(e, env, s).Result?
    ensures Runs(p, i, c, i + |OperandCode(e, k).code|, c')
    ensures var w := Eval(e.right, env, s);
      var v := Eval(e.left, env, w.store);
      && Done(c, c', Result(c'.regs.r0, v.store), env, false)
      && EvalBin(e.op, c'.regs.r0, c'.regs.r1) == EvalBin(e.op, v.value, w.value)
    decreases e, 1
  {
    var l, r := e.left, e.right;
    if IsConst(r) {
      c' := ConstOperandRuns(p, i, l, r.value, k, c, s, env);
    } else if IsConst(l) && Commutative(e.op) {
      c' := ConstOperandRuns(p, i, r, l.value, k, c, s, env);
      EvalCommutes(e.op, c'.regs.r0, c'.regs.r1);
    } else {
      var w := Code(r, k);
      var ow := Eval(r, env, s);
      if ValueIsSimple(l) {
        c' := SimpleOperandRuns(p, i, e, k, w, Code(l, w.next), c, s, ow, Eval(l, env, ow.store), env);
      } else {
        c' := SpilledOperandRuns(p, i, e, k, w, Code(l, w.next), c, s, ow, Eval(l, env, ow.store), env);
      }
    }
  }

  /** The right value waits on the hardware stack while the left operand is computed. */
  lemma {:induction false} SpilledOperandRuns(p: Program, i: nat, e: Expr, k: nat, w: Out, v: Out, c: Core, s: Store,
                                              ow: Outcome, ov: Outcome, env: Env)
    returns (c': Core)
    requires e.Bin? && w == Code(e.right, k) && v == Code(e.left, w.next) && Ready(p, env)
    requires At(p, i, w.code + [Push(R0)] + v.code + [Pop(R1)])
    requires Matches(c, s, env) && Fits(c, env, Max(Depth(e.left) + 1, Depth(e.right)))
    requires ow == Eval(e.right, env, s) && ow.Result? && ov == Eval(e.left, env, ow.store) && ov.Result?
    ensures Runs(p, i, c, i + |w.code| + 2 + |v.code|, c')
    ensures Done(c, c', ov, env, false) && c'.regs.r1 == ow.value
    decreases e, 0
  {
    SpillLayout(p, i, w.code, v.code);
    var c1 := ExprRuns(p, i, e.right, k, c, s, env);
    var i1 := i + |w.code|;
    c' := SavedRuns(p, i1, e.left, w.next, c1, ow.store, env);
    RunsTrans(p, i, c, i1, c1, i1 + 2 + |v.code|, c');
    DoneThen(c, c1, c', ow, ov, env);
  }

  lemma SpillLayout(p: Program, i: nat, w: seq<Instr>, v: seq<Instr>)
    requires At(p, i, w + [Push(R0)] + v + [Pop(R1)])
    ensures At(p, i, w) && At(p, i + |w|, [Push(R0)]) && At(p, i + |w| + 1, v) && At(p, i + |w| + 1 + |v|, [Pop(R1)])
  {
    AtSplit(p, i, w + [Push(R0)] + v, [Pop(R1)]);
    AtSplit(p, i, w + [Push(R0)], v);
    AtSplit(p, i, w, [Push(R0)]);
  }

  lemma {:induction false} ConstOperandRuns(p: Program, i: nat, e: Expr, n: u32, k: nat, c: Core, s: Store,
                                            env: Env) returns (c': Core)
    requires Ready(p, env) && At(p, i, Code(e, k).code + [Mov(R1, n)])
    requires Matches(c, s, env) && Fits(c, env, Depth(e)) && Eval(e, env, s).Result?
    ensures Runs(p, i, c, i + |Code(e, k).code| + 1, c')
    ensures Done(c, c', Eval(e, env, s), env, false) && c'.regs.r1 == n
    decreases e, 4
  {
    var j := i + |Code(e, k).code|;
    AtSplit(p, i, Code(e, k).code, [Mov(R1, n)]);
    var c1 := ExprRuns(p, i, e, k, c, s, env);
    c' := c1.(regs := Set(c1.regs, R1, n));
    Go1(p, j, Mov(R1, n), c1, c');
    RunsTrans(p, i, c, j, c1, j + 1, c');
  }

  /** The right value waits in R1 while a simple left operand is computed. */
  lemma {:induction false} SimpleOperandRuns(p: Program, i: nat, e: Expr, k: nat, w: Out, v: Out, c: Core, s: Store,
                                             ow: Outcome, ov: Outcome, env: Env)
    returns (c': Core)
    requires e.Bin? && w == Code(e.right, k) && v == Code(e.left, w.next) && Ready(p, env) && ValueIsSimple(e.left)
    requires At(p, i, w.code + [Movr(R1, R0)] + v.code)
    requires Matches(c, s, env) && Fits(c, env, Max(Depth(e.left), Depth(e.right)))
    requires ow == Eval(e.right, env, s) && ow.Result? && ov == Eval(e.left, env, ow.store) && ov.Result?
    ensures Runs(p, i, c, i + |w.code| + 1 + |v.code|, c')
    ensures Done(c, c', ov, env, false) && c'.regs.r1 == ow.value
    decreases e, 0
  {
    AtSplit(p, i, w.code + [Movr(R1, R0)], v.code);
    AtSplit(p, i, w.code, [Movr(R1, R0)]);
    var i1 := i + |w.code|;
    var c1 := ExprRuns(p, i, e.right, k, c, s, env);
    var c2 := CopyRuns(p, i, i1, c, c1, ow, env);
    c' := ExprRuns(p, i1 + 1, e.left, w.next, c2, ow.store, env);
    RunsTrans(p, i, c, i1 + 1, c2, i1 + 1 + |v.code|, c');
    DoneThen(c, c2, c', ow, ov, env);
  }

  lemma CopyRuns(p: Program, i: nat, j: nat, c: Core, c1: Core, o: Outcome, env: Env) returns (c': Core)
    requires At(p, j, [Movr(R1, R0)]) && Runs(p, i, c, j, c1) && Done(c, c1, o, env, false)
    ensures Runs(p, i, c, j + 1, c') && Done(c, c', o, env, false) && c'.regs.r1 == o.value
  {
    c' := c1.(regs := Set(c1.regs, R1, c1.regs.r0));
    Go1(p, j, Movr(R1, R0), c1, c');
    RunsTrans(p, i, c, j, c1, j + 1, c');
  }

  /** The code of an expression and the temporaries it needs, kept folded. */
  ghost predicate Compiles(e: Expr, k: nat, code: seq<Instr>, d: nat) {
    forall z: int :: Shown(z, e, k) ==> code == Code(e, k).code && Depth(e) <= d
  }

  /** The outcome of an expression, kept folded. */
  ghost predicate Means(e: Expr, env: Env, s: Store, o: Outcome) {
    forall z: int :: Shown(z, e, s) ==> o == Eval(e, env, s)
  }

  lemma {:induction false} ExprDone(p: Program, i: nat, e: Expr, k: nat, code: seq<Instr>, d: nat, c: Core, s: Store,
                                    o: Outcome, env: Env) returns (c': Core)
    requires Ready(p, env) && Compiles(e, k, code, d) && Means(e, env, s, o) && At(p, i, code) && Matches(c, s, env)
      && Fits(c, env, d) && o.Result?
    ensures Runs(p, i, c, i + |code|, c') && Done(c, c', o, env, false)
    decreases e, 4
  {
    assert Shown(0, e, k);
    assert Shown(0, e, s);
    c' := ExprRuns(p, i, e, k, c, s, env);
  }

  /** An expression used as a condition: evaluated, compared with zero, and branched on. */
  lemma {:induction false} TestExprRuns(p: Program, i: nat, e: Expr, k: nat, code: seq<Instr>, d: nat, cond: Cond,
                                        id: nat, t: nat, next: nat, c: Core, s: Store, o: Outcome, env: Env)
    returns (c': Core)
    requires Ready(p, env) && Compiles(e, k, code, d) && Means(e, env, s, o) && At(p, i, code)
      && At(p, i + |code|, TestCode(cond, id))
    requires next == i + |code| + 3 && t < |p.code| && p.code[t] == Label(id) && (cond == Z || cond == NZ)
    requires Matches(c, s, env) && Fits(c, env, d) && o.Result?
    ensures (cond == Z) == (o.value == 0) ==> Runs(p, i, c, t, c')
    ensures (cond == Z) != (o.value == 0) ==> Runs(p, i, c, next, c')
    ensures Done(c, c', o, env, false) && Fits(c', env, 0) && |c'.mem| == |c.mem|
    decreases e, 5
  {
    var j := i + |code|;
    var c1 := ExprDone(p, i, e, k, code, d, c, s, o, env);
    c' := TestRuns(p, j, cond, id, t, c, c1, o, env);
    RunsTrans(p, i, c, j, c1, if (cond == Z) == (o.value == 0) then t else next, c');
  }

  lemma {:induction false} NotRuns(p: Program, i: nat, e: Expr, k: nat, c: Core, s: Store, env: Env) returns (c': Core)
    requires e.Not? && Ready(p, env) && At(p, i, Code(e, k).code)
    requires Matches(c, s, env) && Fits(c, env, Depth(e)) && Eval(e, env, s).Result?
    ensures Runs(p, i, c, i + |Code(e, k).code|, c') && Done(c, c', Eval(e, env, s), env, false)
    decreases e, 2
  {
    var v := Code(e.operand, k + 2);
    AtSplit(p, i, v.code + TestCode(Z, k), SetCode(0, 1, k, k + 1));
    AtSplit(p, i, v.code, TestCode(Z, k));
    var j := i + |v.code| + 3;
    AtLine(p, j, SetCode(0, 1, k, k + 1), 2);
    var o := Eval(e.operand, env, s);
    var c1 := TestExprRuns(p, i, e.operand, k + 2, v.code, Depth(e.operand), Z, k, j + 2, j, c, s, o, env);
    c' := SetAfter(p, i, j, 0, 1, k, o.value == 0, c, c1, o, env);
  }

  /** The value-setting tail after a decided branch. */
  lemma SetAfter(p: Program, i: nat, j: nat, v: u32, w: u32, k: nat, landed: bool, c: Core, c1: Core, o: Outcome,
                 env: Env)
    returns (c': Core)
    requires Ready(p, env) && At(p, j, SetCode(v, w, k, k + 1)) && Done(c, c1, o, env, false)
    requires landed ==> Runs(p, i, c, j + 2, c1)
    requires !landed ==> Runs(p, i, c, j, c1)
    ensures Runs(p, i, c, j + 5, c')
    ensures Done(c, c', Result(if landed then w else v, o.store), env, false)
  {
    c' := SetRuns(p, j, v, w, k, k + 1, landed, c, c1, o, env);
    RunsTrans(p, i, c, if landed then j + 2 else j, c1, j + 5, c');
  }

  /** && and || share their shape: each operand that decides the result jumps to the label. */
  lemma {:induction false} LogicalRuns(p: Program, i: nat, e: Expr, k: nat, c: Core, s: Store,
                                       env: Env) returns (c': Core)
    requires (e.LogAnd? || e.LogOr?) && Ready(p, env) && At(p, i, Code(e, k).code)
    requires Matches(c, s, env) && Fits(c, env, Depth(e)) && Eval(e, env, s).Result?
    ensures Runs(p, i, c, i + |Code(e, k).code|, c') && Done(c, c', Eval(e, env, s), env, false)
    decreases e, 2
  {
    var v := Code(e.left, k + 2);
    var w := Code(e.right, v.next);
    if e.LogAnd? {
      c' := ShortCircuitRuns(p, i, e, k, v, w, Z, 1, 0, c, s, env);
    } else {
      c' := ShortCircuitRuns(p, i, e, k, v, w, NZ, 0, 1, c, s, env);
    }
  }

  /** The operand values that decide give y at once, the others leave it to the second operand. */
  function ShortCircuit(l: Expr, r: Expr, cond: Cond, x: u32, y: u32, env: Env, s: Store): Outcome {
    var v := Eval(l, env, s);
    if v.Fault? then Fault else Decide(v, Eval(r, env, v.store), cond, x, y)
  }

  function Decide(v: Outcome, w: Outcome, cond: Cond, x: u32, y: u32): Outcome
    requires v.Result?
  {
    if (cond == Z) == (v.value == 0) then Result(y, v.store)
    else if w.Fault? then Fault else Result(if (cond == Z) == (w.value == 0) then y else x, w.store)
  }

  lemma {:induction false} ShortCircuitRuns(p: Program, i: nat, e: Expr, k: nat, v: Out, w: Out, cond: Cond, x: u32,
                                            y: u32, c: Core, s: Store, env: Env)
    returns (c': Core)
    requires (e.LogAnd? || e.LogOr?) && Ready(p, env) && (cond == Z || cond == NZ)
    requires v == Code(e.left, k + 2) && w == Code(e.right, v.next)
    requires At(p, i, v.code + TestCode(cond, k) + w.code + TestCode(cond, k) + SetCode(x, y, k, k + 1))
    requires Matches(c, s, env) && Fits(c, env, Max(Depth(e.left), Depth(e.right)))
    requires ShortCircuit(e.left, e.right, cond, x, y, env, s).Result?
    ensures Runs(p, i, c, i + |v.code| + 3 + |w.code| + 3 + 5, c')
    ensures Done(c, c', ShortCircuit(e.left, e.right, cond, x, y, env, s), env, false)
    decreases e, 1
  {
    LogicalLayout(p, i, v.code, w.code, TestCode(cond, k), SetCode(x, y, k, k + 1));
    var i2 := i + |v.code| + 3;
    var o := Eval(e.left, env, s);
    c' := LogicalLaid(p, i, i2, i2 + |w.code| + 3, e, k, v.next, v.code, w.code, Max(Depth(e.left), Depth(e.right)),
        cond, x, y, c, s, o, Eval(e.right, env, o.store), env);
  }

  lemma {:induction false} LogicalLaid(p: Program, i: nat, i2: nat, j: nat, e: Expr, k: nat, k': nat, v: seq<Instr>,
                                       w: seq<Instr>, d: nat, cond: Cond, x: u32, y: u32, c: Core, s: Store, o: Outcome,
                                       o2: Outcome, env: Env)
    returns (c': Core)
    requires (e.LogAnd? || e.LogOr?) && Compiles(e.left, k + 2, v, d) && Compiles(e.right, k', w, d) && o.Result?
    requires Means(e.left, env, s, o) && Means(e.right, env, o.store, o2)
    requires Ready(p, env) && (cond == Z || cond == NZ) && i2 == i + |v| + 3 && j == i2 + |w| + 3
    requires At(p, i, v) && At(p, i2 - 3, TestCode(cond, k)) && At(p, i2, w) && At(p, j - 3, TestCode(cond, k))
      && At(p, j, SetCode(x, y, k, k + 1))
    requires Matches(c, s, env) && Fits(c, env, d) && Decide(o, o2, cond, x, y).Result?
    ensures Runs(p, i, c, j + 5, c') && Done(c, c', Decide(o, o2, cond, x, y), env, false)
    decreases e, 0
  {
    AtLine(p, j, SetCode(x, y, k, k + 1), 2);
    var c1 := TestExprRuns(p, i, e.left, k + 2, v, d, cond, k, j + 2, i2, c, s, o, env);
    if (cond == Z) == (o.value == 0) {
      c' := SetAfter(p, i, j, x, y, k, true, c, c1, o, env);
    } else {
      c' := SecondRuns(p, i, i2, j, e.right, k', w, d, cond, x, y, k, c, c1, o, o2, env);
    }
  }

  /** The second operand of && and ||, reached when the first did not decide. */
  lemma {:induction false} SecondRuns(p: Program, i: nat, i2: nat, j: nat, e: Expr, k': nat, code: seq<Instr>, d: nat,
                                      cond: Cond, x: u32, y: u32, k: nat, c: Core, c1: Core, o1: Outcome, o: Outcome,
                                      env: Env)
    returns (c': Core)
    requires Ready(p, env) && Compiles(e, k', code, d) && At(p, i2, code) && j == i2 + |code| + 3
      && (cond == Z || cond == NZ)
    requires At(p, i2 + |code|, TestCode(cond, k)) && At(p, j, SetCode(x, y, k, k + 1))
    requires Runs(p, i, c, i2, c1) && Done(c, c1, o1, env, false) && Means(e, env, o1.store, o) && Fits(c1, env, d)
      && o.Result?
    ensures Runs(p, i, c, j + 5, c')
    ensures Done(c, c', Result(if (cond == Z) == (o.value == 0) then y else x, o.store), env, false)
    decreases e, 6
  {
    AtLine(p, j, SetCode(x, y, k, k + 1), 2);
    var c2 := TestExprRuns(p, i2, e, k', code, d, cond, k, j + 2, j, c1, o1.store, o, env);
    var landed := (cond == Z) == (o.value == 0);
    RunsTrans(p, i, c, i2, c1, if landed then j + 2 else j, c2);
    DoneThen(c, c1, c2, o1, o, env);
    c' := SetAfter(p, i, j, x, y, k, landed, c, c2, o, env);
  }

  lemma LogicalLayout(p: Program, i: nat, v: seq<Instr>, w: seq<Instr>, test: seq<Instr>, tail: seq<Instr>)
    requires At(p, i, v + test + w + test + tail)
    ensures At(p, i, v) && At(p, i + |v|, test) && At(p, i + |v| + |test|, w)
    ensures At(p, i + |v| + |test| + |w|, test) && At(p, i + |v| + |test| + |w| + |test|, tail)
  {
    AtSplit(p, i, v + test + w + test, tail);
    AtSplit(p, i, v + test + w, test);
    AtSplit(p, i, v + test, w);
    AtSplit(p, i, v, test);
  }

  lemma {:induction false} ConditionalRuns(p: Program, i: nat, e: Expr, k: nat, c: Core, s: Store,
                                           env: Env) returns (c': Core)
    requires e.Conditional? && Ready(p, env) && At(p, i, Code(e, k).code)
    requires Matches(c, s, env) && Fits(c, env, Depth(e)) && Eval(e, env, s).Result?
    ensures Runs(p, i, c, i + |Code(e, k).code|, c') && Done(c, c', Eval(e, env, s), env, false)
    decreases e, 2
  {
    var v := Code(e.cond, k + 2);
    var w := Code(e.yes, v.next);
    var x := Code(e.no, w.next);
    var i2 := i + |v.code| + 3;
    var j := i2 + |w.code|;
    var end := j + 2 + |x.code|;
    assert i + |Code(e, k).code| == end + 1;
    ConditionalLayout(p, i, v.code, w.code, x.code, k);
    var o := Eval(e.cond, env, s);
    c' := ConditionalLaid(p, i, i2, j, end, e, k, v.next, w.next, v.code, w.code, x.code, Depth(e), c, s, o,
        Eval(e.yes, env, o.store), Eval(e.no, env, o.store), env);
  }

  lemma {:induction false} ConditionalLaid(p: Program, i: nat, i2: nat, j: nat, end: nat, e: Expr, k: nat, k1: nat,
                                           k2: nat, v: seq<Instr>, w: seq<Instr>, x: seq<Instr>, d: nat, c: Core,
                                           s: Store, o: Outcome, yes: Outcome, no: Outcome, env: Env)
    returns (c': Core)
    requires e.Conditional? && Ready(p, env) && i2 == i + |v| + 3 && j == i2 + |w| && end == j + 2 + |x| && o.Result?
    requires Compiles(e.cond, k + 2, v, d) && Compiles(e.yes, k1, w, d) && Compiles(e.no, k2, x, d)
    requires Means(e.cond, env, s, o) && Means(e.yes, env, o.store, yes) && Means(e.no, env, o.store, no)
    requires At(p, i, v) && At(p, i2 - 3, TestCode(Z, k)) && At(p, i2, w) && At(p, j + 2, x)
    requires end < |p.code| && p.code[j] == Jmp(k + 1) && p.code[j + 1] == Label(k) && p.code[end] == Label(k + 1)
    requires Matches(c, s, env) && Fits(c, env, d) && (if o.value != 0 then yes else no).Result?
    ensures Runs(p, i, c, end + 1, c') && Done(c, c', if o.value != 0 then yes else no, env, false)
    decreases e, 1
  {
    var c1 := TestExprRuns(p, i, e.cond, k + 2, v, d, Z, k, j + 1, i2, c, s, o, env);
    if o.value != 0 {
      c' := ThenRuns(p, i, i2, j, end, e.yes, k1, w, d, k + 1, c, c1, o, yes, env);
    } else {
      c' := ElseRuns(p, i, j + 1, end, e.no, k2, x, d, c, c1, o, no, env);
    }
  }

  /** The first arm, with the jump over the second. */
  lemma {:induction false} ThenRuns(p: Program, i: nat, i2: nat, j: nat, end: nat, e: Expr, k: nat, code: seq<Instr>,
                                    d: nat, id: nat, c: Core, c1: Core, o: Outcome, o2: Outcome, env: Env)
    returns (c': Core)
    requires Ready(p, env) && Compiles(e, k, code, d) && At(p, i2, code) && j == i2 + |code|
    requires j < |p.code| && p.code[j] == Jmp(id) && end < |p.code| && p.code[end] == Label(id)
    requires Runs(p, i, c, i2, c1) && Done(c, c1, o, env, false) && Means(e, env, o.store, o2) && Fits(c1, env, d)
      && o2.Result?
    ensures Runs(p, i, c, end + 1, c') && Done(c, c', o2, env, false)
    decreases e, 5
  {
    c' := ExprDone(p, i2, e, k, code, d, c1, o.store, o2, env);
    DoneThen(c, c1, c', o, o2, env);
    RunsTrans(p, i, c, i2, c1, j, c');
    GoTo(p, j, c', id, end);
    Go(p, end, c', c');
    RunsTrans(p, j, c', end, c', end + 1, c');
    RunsTrans(p, i, c, j, c', end + 1, c');
  }

  /** The second arm, between the two labels. */
  lemma {:induction false} ElseRuns(p: Program, i: nat, j: nat, end: nat, e: Expr, k: nat, code: seq<Instr>, d: nat,
                                    c: Core, c1: Core, o: Outcome, o2: Outcome, env: Env)
    returns (c': Core)
    requires Ready(p, env) && Compiles(e, k, code, d) && At(p, j + 1, code) && end == j + 1 + |code|
    requires j < |p.code| && p.code[j].Label? && end < |p.code| && p.code[end].Label?
    requires Runs(p, i, c, j, c1) && Done(c, c1, o, env, false) && Means(e, env, o.store, o2) && Fits(c1, env, d)
      && o2.Result?
    ensures Runs(p, i, c, end + 1, c') && Done(c, c', o2, env, false)
    decreases e, 5
  {
    Go(p, j, c1, c1);
    RunsTrans(p, i, c, j, c1, j + 1, c1);
    c' := ExprDone(p, j + 1, e, k, code, d, c1, o.store, o2, env);
    DoneThen(c, c1, c', o, o2, env);
    RunsTrans(p, i, c, j + 1, c1, end, c');
    Go(p, end, c', c');
    RunsTrans(p, i, c, end, c', end + 1, c');
  }

  lemma ConditionalLayout(p: Program, i: nat, v: seq<Instr>, w: seq<Instr>, x: seq<Instr>, k: nat)
    requires At(p, i, v + TestCode(Z, k) + w + [Jmp(k + 1), Label(k)] + x + [Label(k + 1)])
    ensures At(p, i, v) && At(p, i + |v|, TestCode(Z, k)) && At(p, i + |v| + 3, w)
    ensures var j := i + |v| + 3 + |w|;
      && At(p, j + 2, x) && j + 2 + |x| < |p.code|
      && p.code[j] == Jmp(k + 1) && p.code[j + 1] == Label(k) && p.code[j + 2 + |x|] == Label(k + 1)
  {
    var t, m := TestCode(Z, k), [Jmp(k + 1), Label(k)];
    var j := i + |v| + 3 + |w|;
    AtSplit(p, i, v + t + w + m + x, [Label(k + 1)]);
    AtSplit(p, i, v + t + w + m, x);
    AtSplit(p, i, v + t + w, m);
    AtSplit(p, i, v + t, w);
    AtSplit(p, i, v, t);
    AtLine(p, j, m, 0); AtLine(p, j, m, 1); AtLine(p, j + 2 + |x|, [Label(k + 1)], 0);
  }
}
