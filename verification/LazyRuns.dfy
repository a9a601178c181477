/** Whole runs: the program emitted lazily, started in the same state, does what the program
    emitted eagerly does, through every jump, call and trap. */
module LazyRuns {
  import opened Bytes
  import opened Words
  import Int64
  import opened Machine
  import opened LazyStack
  import opened LazyStackProof

  // ---- emitting a sequence of calls ----

  function EmitCalls(g: Gen, ops: seq<Request>, csp: u32): Gen
    decreases |ops|
  {
    if ops == [] then g else EmitCalls(Lazy(g, ops[0], csp), ops[1..], csp)
  }

  /** The flags before call t. */
  function FlagsAt(ops: seq<Request>, t: nat, csp: u32): Gen
    requires t <= |ops|
    decreases t
  {
    if t == 0 then Gen([], false, false)
    else
      var f := FlagsAt(ops, t - 1, csp);
      Segment(f.has, f.stale, ops[t - 1], csp).(text := [])
  }

  /** A call's lines do not depend on the text before it. */
  lemma SegmentAppends(g: Gen, op: Request, csp: u32)
    ensures var s := Segment(g.has, g.stale, op, csp);
      Lazy(g, op, csp) == Gen(g.text + s.text, s.has, s.stale)
  {
    match op
    case Line(i) => EmitAppends(g, i, csp);
    case PushOf(r) => PushAppends(g, r, csp);
    case PopInto(r) => PopAppends(g, r, csp);
    case Move(d) => AdjustAppends(g, d, csp);
    case Flush => assert g.text + ([] + [Store(R5, csp)]) == g.text + [Store(R5, csp)];
  }

  /** g with its text in front of another state's text. */
  ghost predicate Extends(g: Gen, base: seq<Instr>, s: Gen) {
    g == Gen(base + s.text, s.has, s.stale)
  }

  lemma EmitExtends(g: Gen, base: seq<Instr>, s: Gen, i: Instr, csp: u32)
    requires Extends(g, base, s)
    ensures Extends(Emit(g, i, csp), base, Emit(s, i, csp))
  {
    if s.stale && NeedsFlush(i, csp) {
      assert base + s.text + [Store(R5, csp)] + [i] == base + (s.text + [Store(R5, csp)] + [i]);
    } else {
      assert base + s.text + [i] == base + (s.text + [i]);
    }
  }

  lemma EmitAppends(g: Gen, i: Instr, csp: u32)
    ensures Extends(Emit(g, i, csp), g.text, Emit(Gen([], g.has, g.stale), i, csp))
  {
    EmitExtends(g, g.text, Gen([], g.has, g.stale), i, csp);
  }

  lemma LoadExtends(g: Gen, csp: u32)
    ensures Extends(LoadCsp(g, csp), g.text, LoadCsp(Gen([], g.has, g.stale), csp))
  {
    EmitAppends(g, Load(R5, csp), csp);
  }

  lemma PushAppends(g: Gen, r: Reg, csp: u32)
    ensures Extends(PushReg(g, r, csp), g.text, PushReg(Gen([], g.has, g.stale), r, csp))
  {
    var s := LoadCsp(Gen([], g.has, g.stale), csp);
    var h := LoadCsp(g, csp);
    LoadExtends(g, csp);
    EmitExtends(h, g.text, s, Storer(R5, r), csp);
    h, s := Emit(h, Storer(R5, r), csp), Emit(s, Storer(R5, r), csp);
    EmitExtends(h, g.text, s, Mov(R7, 4), csp);
    h, s := Emit(h, Mov(R7, 4), csp), Emit(s, Mov(R7, 4), csp);
    EmitExtends(h, g.text, s, Op(ADD, R5, R7), csp);
  }

  lemma PopAppends(g: Gen, r: Reg, csp: u32)
    ensures Extends(PopReg(g, r, csp), g.text, PopReg(Gen([], g.has, g.stale), r, csp))
  {
    var s := LoadCsp(Gen([], g.has, g.stale), csp);
    var h := LoadCsp(g, csp);
    LoadExtends(g, csp);
    EmitExtends(h, g.text, s, Mov(R7, 4), csp);
    h, s := Emit(h, Mov(R7, 4), csp), Emit(s, Mov(R7, 4), csp);
    EmitExtends(h, g.text, s, Op(SUB, R5, R7), csp);
    h, s := Emit(h, Op(SUB, R5, R7), csp), Emit(s, Op(SUB, R5, R7), csp);
    if r == R5 {
      EmitExtends(h, g.text, s, Store(R5, csp), csp);
      h, s := Emit(h, Store(R5, csp), csp), Emit(s, Store(R5, csp), csp);
      EmitExtends(h, g.text, s, Loadr(R5, R5), csp);
    } else {
      EmitExtends(h.(stale := true), g.text, s.(stale := true), Loadr(r, R5), csp);
    }
  }

  lemma AdjustAppends(g: Gen, d: int, csp: u32)
    ensures Extends(Adjust(g, d, csp), g.text, Adjust(Gen([], g.has, g.stale), d, csp))
  {
    var s := LoadCsp(Gen([], g.has, g.stale), csp);
    var h := LoadCsp(g, csp);
    var mov := Mov(R7, Int64.Wrap32(if d >= 0 then d else -d));
    LoadExtends(g, csp);
    EmitExtends(h, g.text, s, mov, csp);
    h, s := Emit(h, mov, csp), Emit(s, mov, csp);
    EmitExtends(h, g.text, s, Op(if d >= 0 then ADD else SUB, R5, R7), csp);
  }

  // ---- running the emitted lines ----

  /** Before call t, or at the label call t put down, or past a return. */
  datatype Config = Before(t: nat, c: Core) | Landed(t: nat, c: Core) | Returned(c: Core) | Failed

  /** The call that put down a label. */
  function FindCall(ops: seq<Request>, id: nat): (t: nat)
    ensures t <= |ops|
    ensures t < |ops| ==> ops[t] == Line(Label(id))
  {
    if ops == [] then 0
    else if ops[0] == Line(Label(id)) then 0
    else 1 + FindCall(ops[1..], id)
  }

  function Arrive(ops: seq<Request>, t: nat, x: Exit): Config {
    match x
    case Fall(c) => Before(t + 1, c)
    case Goto(id, c) => if FindCall(ops, id) < |ops| then Landed(FindCall(ops, id), c) else Failed
    case Left(c) => Returned(c)
    case Stuck => Failed
  }

  /** Runs the lines of one call, as the lazy or the eager emitter wrote them. */
  function StepCall(ops: seq<Request>, k: Config, lazy: bool, callee: (nat, Core) -> Core, csp: u32): Config {
    match k
    case Before(t, c) =>
      if t >= |ops| then k
      else
        var f := FlagsAt(ops, t, csp);
        var lines := if lazy then Segment(f.has, f.stale, ops[t], csp).text else Eager(ops[t], csp);
        Arrive(ops, t, RunLines(lines, c, callee, csp))
    case Landed(t, c) => Before(t + 1, c)
    case Returned(_) => k
    case Failed => k
  }

  function RunCalls(ops: seq<Request>, k: Config, n: nat, lazy: bool, callee: (nat, Core) -> Core, csp: u32): Config {
    if n == 0 then k else StepCall(ops, RunCalls(ops, k, n - 1, lazy, callee, csp), lazy, callee, csp)
  }

  /** Callers of the emitter keep to its rules at every call. */
  ghost predicate Disciplined(ops: seq<Request>, csp: u32) {
    forall t :: 0 <= t < |ops| ==> Allowed(FlagsAt(ops, t, csp).stale, ops[t], csp)
  }

  /** Same place, related state; at labels, calls' returns and returns the state is the same. */
  ghost predicate Together(ops: seq<Request>, l: Config, e: Config, csp: u32) {
    match e
    case Before(t, c) =>
      && l.Before? && l.t == t && t <= |ops|
      && var f := FlagsAt(ops, t, csp); Rel(l.c, c, f.has, f.stale, csp)
    case Landed(t, c) => l == e && t < |ops| && ops[t].Line? && ops[t].i.Label? && InRange(c.mem, csp)
    case Returned(c) => l == e
    case Failed => true
  }

  lemma ArriveTogether(ops: seq<Request>, t: nat, l: Exit, e: Exit, g: Gen, csp: u32)
    requires t < |ops| && Follows(l, e, g, csp)
    requires g.has == FlagsAt(ops, t + 1, csp).has && g.stale == FlagsAt(ops, t + 1, csp).stale
    requires e.Goto? ==> InRange(e.c.mem, csp)
    ensures Together(ops, Arrive(ops, t, l), Arrive(ops, t, e), csp)
  {
  }

  lemma StepTogether(ops: seq<Request>, l: Config, e: Config, callee: (nat, Core) -> Core, csp: u32)
    requires Disciplined(ops, csp) && KeepsRange(callee, csp) && Together(ops, l, e, csp)
    ensures Together(ops, StepCall(ops, l, true, callee, csp), StepCall(ops, e, false, callee, csp), csp)
  {
    match e
    case Before(t, c) => if t < |ops| { BeforeTogether(ops, t, l.c, c, callee, csp); }
    case Landed(t, c) => LandedTogether(ops, t, c, callee, csp);
    case Returned(_) =>
    case Failed =>
  }

  /** Past a label nothing is owed and nothing is known of R5. */
  lemma LandedTogether(ops: seq<Request>, t: nat, c: Core, callee: (nat, Core) -> Core, csp: u32)
    requires t < |ops| && ops[t].Line? && ops[t].i.Label? && InRange(c.mem, csp)
    ensures Together(ops, StepCall(ops, Landed(t, c), true, callee, csp),
        StepCall(ops, Landed(t, c), false, callee, csp), csp)
  {
    var f := FlagsAt(ops, t, csp);
    var g := Segment(f.has, f.stale, ops[t], csp);
    assert !g.has && !g.stale;
    assert FlagsAt(ops, t + 1, csp) == Gen([], false, false);
  }

  lemma BeforeTogether(ops: seq<Request>, t: nat, l: Core, e: Core, callee: (nat, Core) -> Core, csp: u32)
    requires Disciplined(ops, csp) && KeepsRange(callee, csp)
    requires t < |ops| && var f := FlagsAt(ops, t, csp); Rel(l, e, f.has, f.stale, csp)
    ensures Together(ops, StepCall(ops, Before(t, l), true, callee, csp),
        StepCall(ops, Before(t, e), false, callee, csp), csp)
  {
    var f := FlagsAt(ops, t, csp);
    var op := ops[t];
    var g := Segment(f.has, f.stale, op, csp);
    CallFollows(op, f.has, f.stale, l, e, callee, csp);
    JumpKeepsRange(Eager(op, csp), e, callee, csp);
    ArriveTogether(ops, t, RunLines(g.text, l, callee, csp), RunLines(Eager(op, csp), e, callee, csp), g, csp);
  }

  lemma {:induction false} JumpKeepsRange(lines: seq<Instr>, c: Core, callee: (nat, Core) -> Core, csp: u32)
    requires InRange(c.mem, csp) && KeepsRange(callee, csp)
    ensures var x := RunLines(lines, c, callee, csp); x.Goto? ==> InRange(x.c.mem, csp)
    decreases |lines|
  {
    if lines != [] {
      match lines[0]
      case Jmp(_) =>
      case Jcc(_, _) => JumpKeepsRange(lines[1..], c, callee, csp);
      case Leave =>
      case External(id) => JumpKeepsRange(lines[1..], callee(id, c), callee, csp);
      case i =>
        if Exec(i, c).Some? { JumpKeepsRange(lines[1..], Exec(i, c).value, callee, csp); }
    }
  }

  /** For every disciplined sequence of emitter calls, every behaviour of the code called, every
      starting state and every length of run: as long as the eagerly emitted program neither faults
      nor reaches the cell of `__csp` other than by name, the lazily emitted one goes the same way
      and ends in the same state, up to a `__csp` cell whose value is then in R5. */
  lemma {:induction false} LazyRefinesEager(ops: seq<Request>, c: Core, n: nat, callee: (nat, Core) -> Core, csp: u32)
    requires Disciplined(ops, csp) && KeepsRange(callee, csp) && InRange(c.mem, csp)
    ensures Together(ops, RunCalls(ops, Before(0, c), n, true, callee, csp),
        RunCalls(ops, Before(0, c), n, false, callee, csp), csp)
  {
    if n > 0 {
      LazyRefinesEager(ops, c, n - 1, callee, csp);
      StepTogether(ops, RunCalls(ops, Before(0, c), n - 1, true, callee, csp),
          RunCalls(ops, Before(0, c), n - 1, false, callee, csp), callee, csp);
    }
  }

  /** The text of a whole sequence of calls is the lines of each call in turn. */
  lemma {:induction false} TextOfCalls(ops: seq<Request>, t: nat, csp: u32)
    requires t <= |ops|
    ensures var g := EmitCalls(Gen([], false, false), ops[..t], csp);
      g.has == FlagsAt(ops, t, csp).has && g.stale == FlagsAt(ops, t, csp).stale
    ensures t < |ops| ==>
      var g, f := EmitCalls(Gen([], false, false), ops[..t], csp), FlagsAt(ops, t, csp);
      EmitCalls(Gen([], false, false), ops[..t + 1], csp).text == g.text + Segment(f.has, f.stale, ops[t], csp).text
    decreases t
  {
    if t > 0 {
      TextOfCalls(ops, t - 1, csp);
      EmitLast(Gen([], false, false), ops[..t], csp);
      assert ops[..t][..t - 1] == ops[..t - 1];
      SegmentAppends(EmitCalls(Gen([], false, false), ops[..t - 1], csp), ops[t - 1], csp);
    }
    if t < |ops| {
      EmitLast(Gen([], false, false), ops[..t + 1], csp);
      assert ops[..t + 1][..t] == ops[..t];
      SegmentAppends(EmitCalls(Gen([], false, false), ops[..t], csp), ops[t], csp);
    }
  }

  lemma {:induction false} EmitLast(g: Gen, ops: seq<Request>, csp: u32)
    requires ops != []
    ensures EmitCalls(g, ops, csp) == Lazy(EmitCalls(g, ops[..|ops| - 1], csp), ops[|ops| - 1], csp)
    decreases |ops|
  {
    if |ops| > 1 {
      EmitLast(Lazy(g, ops[0], csp), ops[1..], csp);
      assert ops[1..][..|ops| - 2] == ops[..|ops| - 1][1..];
    }
  }

  // ---- "stale implies has" ----

  /** A line that names R5 while the store is owed and is not made first. */
  predicate Forgets(stale: bool, op: Request, csp: u32) {
    op.Line? && stale && !NeedsFlush(op.i, csp) && MentionsR5(op.i)
  }

  lemma FlagsStep(has: bool, stale: bool, op: Request, csp: u32)
    requires stale ==> has
    ensures var g := Segment(has, stale, op, csp); (g.stale ==> g.has) <==> !Forgets(stale, op, csp)
  {
  }

  ghost predicate ForgetsAt(ops: seq<Request>, t: nat, csp: u32) {
    t < |ops| && Forgets(FlagsAt(ops, t, csp).stale, ops[t], csp)
  }

  ghost predicate FlagsSound(ops: seq<Request>, t: nat, csp: u32) {
    t <= |ops| && (FlagsAt(ops, t, csp).stale ==> FlagsAt(ops, t, csp).has)
  }

  lemma FlagsNext(ops: seq<Request>, t: nat, csp: u32)
    requires t < |ops| && FlagsSound(ops, t, csp)
    ensures FlagsSound(ops, t + 1, csp) <==> !ForgetsAt(ops, t, csp)
  {
    FlagsStep(FlagsAt(ops, t, csp).has, FlagsAt(ops, t, csp).stale, ops[t], csp);
  }

  lemma {:induction false} FlagsKept(ops: seq<Request>, t: nat, csp: u32)
    requires t <= |ops| && forall u: nat :: !ForgetsAt(ops, u, csp)
    ensures FlagsSound(ops, t, csp)
    decreases t
  {
    if t > 0 {
      FlagsKept(ops, t - 1, csp);
      FlagsNext(ops, t - 1, csp);
    }
  }

  /** Over a whole sequence of calls the emitter's flags keep "stale implies has" exactly when no call
      is a line that names R5 while a store is owed and is not made first. */
  lemma StaleImpliesHas(ops: seq<Request>, csp: u32)
    ensures (forall t: nat :: t <= |ops| ==> FlagsSound(ops, t, csp)) <==> forall t: nat :: !ForgetsAt(ops, t, csp)
  {
    if forall t: nat :: !ForgetsAt(ops, t, csp) {
      forall t: nat | t <= |ops| ensures FlagsSound(ops, t, csp) { FlagsKept(ops, t, csp); }
    }
    if forall t: nat :: t <= |ops| ==> FlagsSound(ops, t, csp) {
      forall t: nat ensures !ForgetsAt(ops, t, csp) {
        if t < |ops| { FlagsNext(ops, t, csp); }
      }
    }
  }
}
