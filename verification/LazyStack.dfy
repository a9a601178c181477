/** The deferred write-back of the software stack pointer `__csp`.

    The emitter keeps the live value of `__csp` in R5 and stores it only before lines that need it
    in memory. The straightforward emitter loads and stores it around every push and pop. Running
    either one's lines has the same effect, for every sequence of emissions that does not change
    R5 while the store is owed. */
module LazyStack {
  import opened Words
  import opened Int64
  import opened Machine

  // ---- emission ----

  /** The emitter's state: `has` says R5 holds `__csp`, `stale` that memory is behind R5. */
  datatype Gen = Gen(text: seq<Instr>, has: bool, stale: bool)

  predicate MentionsCsp(i: Instr, csp: u32) {
    (i.Load? && i.addr == csp) || (i.Store? && i.addr == csp)
  }

  predicate MentionsR5(i: Instr) {
    match i
    case Mov(d, _) => d == R5
    case Movr(d, s) => d == R5 || s == R5
    case Load(d, _) => d == R5
    case Store(s, _) => s == R5
    case Loadr(d, a) => d == R5 || a == R5
    case Storer(a, s) => a == R5 || s == R5
    case Op(_, d, s) => d == R5 || s == R5
    case Cmp(d, s) => d == R5 || s == R5
    case Push(s) => s == R5
    case Pop(d) => d == R5
    case _ => false
  }

  /** Lines that can give R5 another value. Copying R5 to itself, or combining it with itself by
      AND or OR, cannot. */
  predicate ChangesR5(i: Instr) {
    match i
    case Mov(d, _) => d == R5
    case Movr(d, s) => d == R5 && s != R5
    case Load(d, _) => d == R5
    case Loadr(d, _) => d == R5
    case Op(alu, d, s) => d == R5 && !(s == R5 && (alu == AND || alu == OR))
    case Pop(d) => d == R5
    case _ => false
  }

  predicate NeedsFlush(i: Instr, csp: u32) {
    i.Label? || i.External? || i.Leave? || i.Jmp? || i.Jcc? || MentionsCsp(i, csp)
  }

  function Put(g: Gen, i: Instr, csp: u32): Gen {
    Gen(g.text + [i], g.has && !i.Label? && !MentionsR5(i) && !MentionsCsp(i, csp) && !i.External?, g.stale)
  }

  function FlushCsp(g: Gen, csp: u32): Gen {
    if g.stale then Put(g.(stale := false), Store(R5, csp), csp).(has := true) else g
  }

  function Emit(g: Gen, i: Instr, csp: u32): Gen {
    Put(if g.stale && NeedsFlush(i, csp) then FlushCsp(g, csp) else g, i, csp)
  }

  function LoadCsp(g: Gen, csp: u32): Gen {
    (if g.has then g else Emit(g, Load(R5, csp), csp)).(has := true)
  }

  function PushReg(g: Gen, r: Reg, csp: u32): Gen {
    var g := Emit(LoadCsp(g, csp), Storer(R5, r), csp);
    Emit(Emit(g, Mov(R7, 4), csp), Op(ADD, R5, R7), csp).(stale := true, has := true)
  }

  function PopReg(g: Gen, r: Reg, csp: u32): Gen {
    var g := Emit(Emit(LoadCsp(g, csp), Mov(R7, 4), csp), Op(SUB, R5, R7), csp);
    if r == R5 then
      Emit(Emit(g, Store(R5, csp), csp), Loadr(R5, R5), csp).(stale := false, has := false)
    else
      Emit(g.(stale := true), Loadr(r, R5), csp).(has := true)
  }

  function Adjust(g: Gen, delta: int, csp: u32): Gen {
    var n := Wrap32(if delta >= 0 then delta else -delta);
    var g := Emit(LoadCsp(g, csp), Mov(R7, n), csp);
    Emit(g, Op(if delta >= 0 then ADD else SUB, R5, R7), csp).(stale := true, has := true)
  }

  /** One call on the emitter. */
  datatype Request = Line(i: Instr) | PushOf(r: Reg) | PopInto(r: Reg) | Move(delta: int) | Flush

  function Lazy(g: Gen, op: Request, csp: u32): Gen {
    match op
    case Line(i) => Emit(g, i, csp)
    case PushOf(r) => PushReg(g, r, csp)
    case PopInto(r) => PopReg(g, r, csp)
    case Move(d) => Adjust(g, d, csp)
    case Flush => FlushCsp(g, csp)
  }

  /** What the straightforward emitter produces for the same call. */
  function Eager(op: Request, csp: u32): seq<Instr> {
    match op
    case Line(i) => [i]
    case PushOf(r) => [Load(R5, csp), Storer(R5, r), Mov(R7, 4), Op(ADD, R5, R7), Store(R5, csp)]
    case PopInto(r) => [Load(R5, csp), Mov(R7, 4), Op(SUB, R5, R7), Store(R5, csp), Loadr(r, R5)]
    case Move(d) =>
      [Load(R5, csp), Mov(R7, Wrap32(if d >= 0 then d else -d)), Op(if d >= 0 then ADD else SUB, R5, R7),
          Store(R5, csp)]
    case Flush => []
  }

  /** The lines one call adds, which depend on the two flags only. */
  function Segment(has: bool, stale: bool, op: Request, csp: u32): Gen {
    Lazy(Gen([], has, stale), op, csp)
  }

  /** Fixed addresses are the cell of `__csp` or apart from it. */
  predicate Aligned(i: Instr, csp: u32) {
    (i.Load? || i.Store?) ==> i.addr == csp || i.addr + 4 <= csp || csp + 4 <= i.addr
  }

  /** A line that changes R5 while the store is owed and is not made first. */
  predicate Clobbers(stale: bool, i: Instr, csp: u32) { stale && !NeedsFlush(i, csp) && ChangesR5(i) }

  /** What callers of the emitter owe it: no line changes R5 while a store is owed, unless the store
      is made before that line, and no fixed address straddles the cell of `__csp`. */
  predicate Allowed(stale: bool, op: Request, csp: u32) {
    op.Line? ==> !Clobbers(stale, op.i, csp) && Aligned(op.i, csp)
  }

  // ---- execution of the lines of one call ----

  /** Falls through, jumps to a label, leaves the function, or faults. */
  datatype Exit = Fall(c: Core) | Goto(id: nat, c: Core) | Left(c: Core) | Stuck

  /** Runs lines in order; `callee` is whatever a call or trap does before coming back. */
  function RunLines(lines: seq<Instr>, c: Core, callee: (nat, Core) -> Core, csp: u32): Exit
    decreases |lines|
  {
    if lines == [] then Fall(c) else
    match lines[0]
    case Jmp(t) => Goto(t, c)
    case Jcc(cond, t) => if Holds(cond, c.flags) then Goto(t, c) else RunLines(lines[1..], c, callee, csp)
    case Leave => Left(c)
    case External(id) => RunLines(lines[1..], callee(id, c), callee, csp)
    case i =>
      var r := Exec(i, c);
      if !KeepsOff(i, c, csp) || r.None? then Stuck else RunLines(lines[1..], r.value, callee, csp)
  }
}
