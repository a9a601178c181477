/** The rule on R5 is exact: a line may be emitted while the store of `__csp` is owed if and only if
    it cannot change R5, or makes the store first. */
module LazyRule {
  import opened Bytes
  import opened Words
  import opened Machine
  import opened LazyStack
  import opened LazyStackProof

  // ---- one line, then the owed store ----

  /** The lines emitted for one line and a flush after it. */
  function LineThenFlush(i: Instr, has: bool, stale: bool, csp: u32): seq<Instr> {
    var g := Segment(has, stale, Line(i), csp);
    g.text + Segment(g.has, g.stale, Flush, csp).text
  }

  predicate SameExit(x: Exit, y: Exit) { y.Stuck? || x == y }

  /** From every pair of related states, the line as emitted and then the owed store end exactly as
      the line alone does on the machine that stores at once. */
  ghost predicate LineRefines(i: Instr, has: bool, stale: bool, callee: (nat, Core) -> Core, csp: u32) {
    forall l: Core, e: Core {:trigger Rel(l, e, has, stale, csp)} :: Rel(l, e, has, stale, csp) ==>
      SameExit(RunLines(LineThenFlush(i, has, stale, csp), l, callee, csp), RunLines([i], e, callee, csp))
  }

  lemma {:induction false} RunConcat(a: seq<Instr>, b: seq<Instr>, c: Core, callee: (nat, Core) -> Core, csp: u32)
    ensures var x := RunLines(a, c, callee, csp);
      RunLines(a + b, c, callee, csp) == if x.Fall? then RunLines(b, x.c, callee, csp) else x
    decreases |a|
  {
    if a == [] {
      assert a + b == b;
    } else {
      assert (a + b)[0] == a[0] && (a + b)[1..] == a[1..] + b;
      match a[0]
      case Jmp(_) =>
      case Jcc(_, _) => RunConcat(a[1..], b, c, callee, csp);
      case Leave =>
      case External(id) => RunConcat(a[1..], b, callee(id, c), callee, csp);
      case i => if Exec(i, c).Some? { RunConcat(a[1..], b, Exec(i, c).value, callee, csp); }
    }
  }

  lemma AllowedRefines(i: Instr, has: bool, stale: bool, l: Core, e: Core, callee: (nat, Core) -> Core, csp: u32)
    requires Rel(l, e, has, stale, csp) && Allowed(stale, Line(i), csp) && KeepsRange(callee, csp)
    ensures SameExit(RunLines(LineThenFlush(i, has, stale, csp), l, callee, csp), RunLines([i], e, callee, csp))
  {
    var g := Segment(has, stale, Line(i), csp);
    var tail := Segment(g.has, g.stale, Flush, csp).text;
    LineFollows(i, has, stale, l, e, callee, csp);
    RunConcat(g.text, tail, l, callee, csp);
    var x, y := RunLines(g.text, l, callee, csp), RunLines([i], e, callee, csp);
    if y.Fall? && g.stale {
      assert tail == [Store(R5, csp)] + [];
      RunFlush([], g.has, x.c, y.c, callee, csp);
    }
  }

  // ---- a state that tells the difference ----

  function Zeros(n: nat): (z: seq<u8>)
    ensures |z| == n && forall a :: 0 <= a < n ==> z[a] == 0
  {
    seq(n, _ => 0)
  }

  /** `__csp` is x, in R5 and in memory; every other register is y and all other memory zero. */
  function Tell(x: u32, y: u32, sp: int, size: nat, csp: u32): Core
    requires csp + 4 <= size
  {
    Core(Regs(y, y, y, y, y, x, y, y), sp, Flags(false, false, false, false), Write32(Zeros(size), csp, x))
  }

  lemma TellRelated(x: u32, y: u32, sp: int, size: nat, has: bool, csp: u32)
    requires csp + 4 <= size
    ensures var c := Tell(x, y, sp, size, csp); Rel(c, c, has, true, csp)
    ensures forall a :: 0 <= a && a + 4 <= size && (a + 4 <= csp || csp + 4 <= a) ==>
      Read32(Tell(x, y, sp, size, csp).mem, a) == 0
  {
    WriteRead(Zeros(size), csp, x);
  }

  /** Operands on which an operator does not give its first operand back. */
  function Operands(alu: Alu): (u32, u32) {
    match alu
    case MUL => (1, 0)
    case DIV => (1, 2)
    case IDIV => (1, 2)
    case AND => (1, 0)
    case OR => (1, 2)
    case _ => (1, 1)
  }

  /** The same with one operand twice; AND and OR have none. */
  function Doubled(alu: Alu): u32 { if alu == MUL || alu == DIV || alu == IDIV then 2 else 1 }

  lemma OperandsTell(alu: Alu)
    ensures var r := AluResult(alu, Operands(alu).0, Operands(alu).1); r.Some? && r.value != Operands(alu).0
  {
    match alu
    case ADD => Sums();
    case SUB => Sums();
    case MUL => Sums();
    case AND => BitResults();
    case OR => BitResults();
    case XOR => BitResults();
    case SHL => Shifts();
    case SHR => Shifts();
    case SAR => Shifts();
    case _ => Quotients();
  }

  lemma DoubledTell(alu: Alu)
    requires alu != AND && alu != OR
    ensures var r := AluResult(alu, Doubled(alu), Doubled(alu)); r.Some? && r.value != Doubled(alu)
  {
    match alu
    case ADD => Sums();
    case SUB => Sums();
    case MUL => Sums();
    case XOR => BitResults();
    case SHL => Shifts();
    case SHR => Shifts();
    case SAR => Shifts();
    case _ => Quotients();
  }

  lemma Sums()
    ensures AluResult(ADD, 1, 1) == Some(2) && AluResult(SUB, 1, 1) == Some(0)
    ensures AluResult(MUL, 1, 0) == Some(0) && AluResult(MUL, 2, 2) == Some(4)
  {
  }

  lemma Quotients()
    ensures AluResult(DIV, 1, 2) == Some(0) && AluResult(DIV, 2, 2) == Some(1) && AluResult(MOD, 1, 1) == Some(0)
    ensures AluResult(IDIV, 1, 2) == Some(0) && AluResult(IDIV, 2, 2) == Some(1) && AluResult(IMOD, 1, 1) == Some(0)
  {
  }

  lemma BitResults()
    ensures AluResult(AND, 1, 0) == Some(0) && AluResult(OR, 1, 2) == Some(3) && AluResult(XOR, 1, 1) == Some(0)
  {
    assert Or(0, 1) == 1;
    assert Xor(1, 1) == 0;
  }

  lemma Shifts()
    ensures AluResult(SHL, 1, 1) == Some(2) && AluResult(SHR, 1, 1) == Some(0) && AluResult(SAR, 1, 1) == Some(0)
  {
    assert Pow2(1) == 2 * Pow2(0);
  }

  lemma TellingOperands(alu: Alu, s: Reg, has: bool, csp: u32) returns (c: Core)
    requires ChangesR5(Op(alu, R5, s))
    ensures Rel(c, c, has, true, csp) && Exec(Op(alu, R5, s), c).Some?
    ensures var d := Exec(Op(alu, R5, s), c).value; d.regs.r5 != c.regs.r5 && d.mem == c.mem
  {
    var x := if s == R5 then Doubled(alu) else Operands(alu).0;
    var y := Operands(alu).1;
    c := Tell(x, y, 0, csp + 4, csp);
    TellRelated(x, y, 0, csp + 4, has, csp);
    if s == R5 { DoubledTell(alu); } else { OperandsTell(alu); }
  }

  /** A state from which a line that changes R5 runs and leaves R5 other than `__csp`. */
  lemma TellingState(i: Instr, has: bool, csp: u32) returns (c: Core)
    requires ChangesR5(i) && !NeedsFlush(i, csp) && Aligned(i, csp)
    ensures Rel(c, c, has, true, csp) && Ordinary(i) && KeepsOff(i, c, csp) && Exec(i, c).Some?
    ensures var d := Exec(i, c).value; d.regs.r5 != c.regs.r5 && d.mem == c.mem
  {
    var spot := if csp >= 8 then 4 else 12;
    var size := csp + 20;
    match i
    case Mov(_, v) =>
      c := Tell(if v == 0 then 1 else 0, 0, 0, size, csp);
      TellRelated(if v == 0 then 1 else 0, 0, 0, size, has, csp);
    case Movr(_, _) =>
      c := Tell(1, 0, 0, size, csp);
      TellRelated(1, 0, 0, size, has, csp);
    case Load(_, a) =>
      c := Tell(1, 0, 0, size + a, csp);
      TellRelated(1, 0, 0, size + a, has, csp);
    case Loadr(_, _) =>
      c := Tell(spot, spot, 0, size, csp);
      TellRelated(spot, spot, 0, size, has, csp);
    case Op(alu, _, s) => c := TellingOperands(alu, s, has, csp);
    case Pop(_) =>
      c := Tell(1, 0, spot, size, csp);
      TellRelated(1, 0, spot, size, has, csp);
  }

  lemma ClobberTells(i: Instr, has: bool, callee: (nat, Core) -> Core, csp: u32)
    requires Clobbers(true, i, csp) && Aligned(i, csp)
    ensures !LineRefines(i, has, true, callee, csp)
  {
    var c := TellingState(i, has, csp);
    var d := Exec(i, c).value;
    var sto := Store(R5, csp);
    assert LineThenFlush(i, has, true, csp) == [i] + ([sto] + []);
    RunFirst(i, [sto] + [], c, callee, csp);
    RunFirst(sto, [], d, callee, csp);
    RunFirst(i, [], c, callee, csp);
    assert [i] + [] == [i];
    WriteRead(d.mem, csp, d.regs.r5);
  }

  /** The rule, exactly. */
  lemma RuleExact(i: Instr, has: bool, stale: bool, callee: (nat, Core) -> Core, csp: u32)
    requires Aligned(i, csp) && KeepsRange(callee, csp)
    ensures LineRefines(i, has, stale, callee, csp) <==> !Clobbers(stale, i, csp)
  {
    if Clobbers(stale, i, csp) {
      ClobberTells(i, has, callee, csp);
    } else {
      forall l: Core, e: Core | Rel(l, e, has, stale, csp)
        ensures SameExit(RunLines(LineThenFlush(i, has, stale, csp), l, callee, csp), RunLines([i], e, callee, csp))
      {
        AllowedRefines(i, has, stale, l, e, callee, csp);
      }
    }
  }
}
