/** The custom32 register machine, as far as compiled expressions use it.

    Instructions are executed from a list in which labels are lines of their own; the program
    counter is an index into that list. Words are 32 bits wide and little-endian in memory. */
module Machine {
  import opened Bytes
  import opened Words
  import opened Int64

  datatype Option<+T> = None | Some(value: T)

  datatype Reg = R0 | R1 | R2 | R3 | R4 | R5 | R6 | R7
  datatype Regs = Regs(r0: u32, r1: u32, r2: u32, r3: u32, r4: u32, r5: u32, r6: u32, r7: u32)
  datatype Flags = Flags(zero: bool, sign: bool, carry: bool, overflow: bool)

  datatype Alu = ADD | SUB | MUL | DIV | MOD | IDIV | IMOD | AND | OR | XOR | SHL | SHR | SAR
  datatype Cond = Z | NZ | L | LE | B | BE

  datatype Instr =
    | Mov(d: Reg, imm: u32)
    | Movr(d: Reg, s: Reg)
    | Load(d: Reg, addr: u32)
    | Store(s: Reg, addr: u32)
    | Loadr(d: Reg, a: Reg)
    | Storer(a: Reg, s: Reg)
    | Op(alu: Alu, d: Reg, s: Reg)
    | Cmp(d: Reg, s: Reg)
    | Push(s: Reg)
    | Pop(d: Reg)
    | Jmp(target: nat)
    | Jcc(cond: Cond, target: nat)
    | Label(id: nat)
    | External(id: nat) // CALL, CALLR and INT: control leaves the function and comes back
    | Leave             // RET and IRET

  /** Everything but the program counter. */
  datatype Core = Core(regs: Regs, sp: int, flags: Flags, mem: seq<u8>)

  function Get(r: Regs, n: Reg): u32 {
    match n
    case R0 => r.r0 case R1 => r.r1 case R2 => r.r2 case R3 => r.r3
    case R4 => r.r4 case R5 => r.r5 case R6 => r.r6 case R7 => r.r7
  }

  function Set(r: Regs, n: Reg, v: u32): Regs {
    match n
    case R0 => r.(r0 := v) case R1 => r.(r1 := v) case R2 => r.(r2 := v) case R3 => r.(r3 := v)
    case R4 => r.(r4 := v) case R5 => r.(r5 := v) case R6 => r.(r6 := v) case R7 => r.(r7 := v)
  }

  // ---- arithmetic ----

  predicate Negative(x: u32) { x >= 0x8000_0000 }

  function AluResult(alu: Alu, a: u32, b: u32): Option<u32> {
    match alu
    case ADD => Some(Wrap32(a + b))
    case SUB => Some(Wrap32(a - b))
    case MUL => Some(Wrap32(a * b))
    case DIV => if b == 0 then None else Some(Wrap32(a / b))
    case MOD => if b == 0 then None else Some(Wrap32(a % b))
    case IDIV => if b == 0 then None else Some(Wrap32(TruncDiv(AsInt(a), AsInt(b))))
    case IMOD => if b == 0 then None else Some(Wrap32(TruncMod(AsInt(a), AsInt(b))))
    case AND => Some(And(a, b))
    case OR => Some(Wrap32(Or(a, b)))
    case XOR => Some(Wrap32(Xor(a, b)))
    case SHL => Some(Shl32(a, b % 32))
    case SHR => Some(Shr(a, b % 32))
    case SAR => Some(Wrap32(AsInt(a) / Pow2(b % 32)))
  }

  function ResultFlags(f: Flags, r: u32): Flags {
    f.(zero := r == 0, sign := Negative(r))
  }

  function AluFlags(alu: Alu, f: Flags, a: u32, b: u32, r: u32): Flags {
    match alu
    case ADD => Flags(r == 0, Negative(r), a + b >= 0x1_0000_0000,
                      Negative(a) == Negative(b) && Negative(a) != Negative(r))
    case SUB => SubFlags(a, b)
    case _ => ResultFlags(f, r)
  }

  /** The overflow bit compares sign bits: the operands' differ, and the result took the second's. */
  function SubFlags(a: u32, b: u32): Flags {
    var r := Wrap32(a - b);
    Flags(r == 0, Negative(r), a < b, Negative(a) != Negative(b) && Negative(a) != Negative(r))
  }

  predicate Holds(cond: Cond, f: Flags) {
    match cond
    case Z => f.zero
    case NZ => !f.zero
    case L => f.sign != f.overflow
    case LE => f.sign != f.overflow || f.zero
    case B => f.carry
    case BE => f.carry || f.zero
  }

  /** After CMP the jump conditions are the comparisons of the operands. */
  lemma FlagsCompare(a: u32, b: u32)
    ensures Holds(Z, SubFlags(a, b)) <==> a == b
    ensures Holds(NZ, SubFlags(a, b)) <==> a != b
    ensures Holds(L, SubFlags(a, b)) <==> AsInt(a) < AsInt(b)
    ensures Holds(LE, SubFlags(a, b)) <==> AsInt(a) <= AsInt(b)
    ensures Holds(B, SubFlags(a, b)) <==> a < b
    ensures Holds(BE, SubFlags(a, b)) <==> a <= b
  {
    WrapNear(a - b);
  }

  predicate Fits32(x: int) { -0x8000_0000 <= x < 0x8000_0000 }

  /** What the flags say after an operation: zero and sign of its result, and after a sum or a difference whether
      the unsigned and the signed result went out of range. */
  lemma AluFlagsMean(alu: Alu, f: Flags, a: u32, b: u32)
    requires AluResult(alu, a, b).Some?
    ensures var r := AluResult(alu, a, b).value;
      var g := AluFlags(alu, f, a, b, r);
      && (g.zero <==> r == 0) && (g.sign <==> AsInt(r) < 0)
      && (alu == ADD ==> (g.carry <==> a + b != r) && (g.overflow <==> !Fits32(AsInt(a) + AsInt(b))))
      && (alu == SUB ==> (g.carry <==> a - b != r) && (g.overflow <==> !Fits32(AsInt(a) - AsInt(b))))
      && (alu != ADD && alu != SUB ==> g.carry == f.carry && g.overflow == f.overflow)
  {
    WrapNear(a + b);
    WrapNear(a - b);
  }

  // ---- execution ----

  /** One instruction that does not jump; None when it faults. */
  function Exec(i: Instr, c: Core): Option<Core> {
    match i
    case Mov(d, imm) => Some(c.(regs := Set(c.regs, d, imm)))
    case Movr(d, s) => Some(c.(regs := Set(c.regs, d, Get(c.regs, s))))
    case Load(d, a) =>
      if InRange(c.mem, a) then Some(c.(regs := Set(c.regs, d, Read32(c.mem, a)))) else None
    case Store(s, a) =>
      if InRange(c.mem, a) then Some(c.(mem := Write32(c.mem, a, Get(c.regs, s)))) else None
    case Loadr(d, a) =>
      var p := Get(c.regs, a);
      if InRange(c.mem, p) then Some(c.(regs := Set(c.regs, d, Read32(c.mem, p)))) else None
    case Storer(a, s) =>
      var p := Get(c.regs, a);
      if InRange(c.mem, p) then Some(c.(mem := Write32(c.mem, p, Get(c.regs, s)))) else None
    case Op(alu, d, s) =>
      var a, b := Get(c.regs, d), Get(c.regs, s);
      var r := AluResult(alu, a, b);
      if r.None? then None
      else Some(c.(regs := Set(c.regs, d, r.value), flags := AluFlags(alu, c.flags, a, b, r.value)))
    case Cmp(d, s) => Some(c.(flags := SubFlags(Get(c.regs, d), Get(c.regs, s))))
    case Push(s) =>
      var p := c.sp - 4;
      if InRange(c.mem, p) then Some(c.(sp := p, mem := Write32(c.mem, p, Get(c.regs, s)))) else None
    case Pop(d) =>
      if InRange(c.mem, c.sp) then Some(c.(sp := c.sp + 4, regs := Set(c.regs, d, Read32(c.mem, c.sp)))) else None
    case Label(_) => Some(c)
    case Jmp(_) => None
    case Jcc(_, _) => None
    case External(_) => None
    case Leave => None
  }

  /** A program, and the address of a word that it may name but must not reach through a register or
      the stack. */
  datatype Program = Program(code: seq<Instr>, cell: int)

  /** The address of no word. */
  const NOWHERE := -4

  predicate KeepsOff(i: Instr, c: Core, cell: int) {
    var a := match i
      case Loadr(_, r) => Get(c.regs, r)
      case Storer(r, _) => Get(c.regs, r)
      case Push(_) => c.sp - 4
      case Pop(_) => c.sp
      case _ => cell + 4;
    a + 4 <= cell || cell + 4 <= a
  }

  /** The line a label stands on, or the end of the program when there is none. */
  function Find(code: seq<Instr>, id: nat): (n: nat)
    ensures n <= |code|
    ensures n < |code| ==> code[n] == Label(id)
    ensures n == |code| ==> Label(id) !in code
  {
    if code == [] then 0
    else if code[0] == Label(id) then 0
    else 1 + Find(code[1..], id)
  }

  /** One step at line pc: the next line and state. */
  function Step(p: Program, pc: nat, c: Core): Option<(nat, Core)>
    requires pc < |p.code|
  {
    match p.code[pc]
    case Jmp(t) => if Label(t) in p.code then Some((Find(p.code, t), c)) else None
    case Jcc(cond, t) =>
      if !Holds(cond, c.flags) then Some((pc + 1, c))
      else if Label(t) in p.code then Some((Find(p.code, t), c)) else None
    case i =>
      var r := Exec(i, c);
      if r.None? || !KeepsOff(i, c, p.cell) then None else Some((pc + 1, r.value))
  }

  /** n steps from line pc in state c lead to line pc' in state c'. */
  ghost predicate RunsIn(p: Program, pc: nat, c: Core, pc': nat, c': Core, n: nat)
    decreases n
  {
    if n == 0 then pc == pc' && c == c'
    else pc < |p.code| && var s := Step(p, pc, c);
      s.Some? && RunsIn(p, s.value.0, s.value.1, pc', c', n - 1)
  }

  ghost predicate Runs(p: Program, pc: nat, c: Core, pc': nat, c': Core) {
    exists n: nat :: RunsIn(p, pc, c, pc', c', n)
  }

  lemma RunsNot(p: Program, pc: nat, c: Core)
    ensures Runs(p, pc, c, pc, c)
  {
    assert RunsIn(p, pc, c, pc, c, 0);
  }

  lemma {:induction false} RunsInTrans(p: Program, p0: nat, c0: Core, p1: nat, c1: Core, p2: nat, c2: Core, m: nat,
                                       n: nat)
    requires RunsIn(p, p0, c0, p1, c1, m) && RunsIn(p, p1, c1, p2, c2, n)
    ensures RunsIn(p, p0, c0, p2, c2, m + n)
    decreases m
  {
    if m > 0 {
      var s := Step(p, p0, c0);
      RunsInTrans(p, s.value.0, s.value.1, p1, c1, p2, c2, m - 1, n);
    }
  }

  lemma RunsTrans(p: Program, p0: nat, c0: Core, p1: nat, c1: Core, p2: nat, c2: Core)
    requires Runs(p, p0, c0, p1, c1) && Runs(p, p1, c1, p2, c2)
    ensures Runs(p, p0, c0, p2, c2)
  {
    var m: nat :| RunsIn(p, p0, c0, p1, c1, m);
    var n: nat :| RunsIn(p, p1, c1, p2, c2, n);
    RunsInTrans(p, p0, c0, p1, c1, p2, c2, m, n);
  }

  lemma RunsStep(p: Program, pc: nat, c: Core, pc': nat, c': Core)
    requires pc < |p.code| && Step(p, pc, c) == Some((pc', c'))
    ensures Runs(p, pc, c, pc', c')
  {
    assert RunsIn(p, pc', c', pc', c', 0);
    assert RunsIn(p, pc, c, pc', c', 1);
  }
}
