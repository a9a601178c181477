/** How much of the hardware stack the code of an expression takes, read off the code itself. */
module CodegenDepth {
  import opened Folding
  import opened Words
  import opened Machine
  import opened Codegen
  import opened CodegenProof

  function Change(i: Instr): int { if i.Push? then 1 else if i.Pop? then -1 else 0 }

  /** How many more words are on the stack after some lines than before. */
  function Net(code: seq<Instr>): int {
    if code == [] then 0 else Net(code[..|code| - 1]) + Change(code[|code| - 1])
  }

  function Greater(a: int, b: int): int { if a >= b then a else b }

  /** The most words that are on the stack at once while some lines run in order. */
  function Deepest(code: seq<Instr>): (d: int)
    ensures d >= 0
  {
    if code == [] then 0 else Greater(Deepest(code[..|code| - 1]), Net(code))
  }

  lemma {:induction false} Joined(a: seq<Instr>, b: seq<Instr>)
    ensures Net(a + b) == Net(a) + Net(b)
    ensures Deepest(a + b) == Greater(Deepest(a), Net(a) + Deepest(b))
    decreases |b|
  {
    if b == [] {
      assert a + b == a;
      NetWithin(a);
    } else {
      var c := b[..|b| - 1];
      assert (a + b)[..|a + b| - 1] == a + c;
      Joined(a, c);
    }
  }

  lemma NetWithin(a: seq<Instr>)
    ensures Net(a) <= Deepest(a)
  {
  }

  /** Lines that leave the stack as it was, and take so much of it meanwhile. */
  ghost predicate Takes(code: seq<Instr>, d: int) {
    forall z: int :: Shown(z, code, d) ==> Net(code) == 0 && Deepest(code) == d
  }

  predicate Flat(code: seq<Instr>) { forall i :: 0 <= i < |code| ==> Change(code[i]) == 0 }

  lemma {:induction false} FlatTakes(code: seq<Instr>)
    requires Flat(code)
    ensures Takes(code, 0)
  {
    if code != [] {
      FlatTakes(code[..|code| - 1]);
      assert Shown(0, code[..|code| - 1], 0);
    }
  }

  lemma Then(a: seq<Instr>, d: int, b: seq<Instr>, d': int)
    requires Takes(a, d) && Takes(b, d')
    ensures Takes(a + b, Greater(d, d'))
  {
    assert Shown(0, a, d) && Shown(0, b, d');
    Joined(a, b);
  }

  lemma ThenFlat(a: seq<Instr>, d: int, b: seq<Instr>)
    requires Takes(a, d) && d >= 0 && Flat(b)
    ensures Takes(a + b, d)
  {
    FlatTakes(b);
    Then(a, d, b, 0);
  }

  /** Lines between a push and a pop have one word less. */
  lemma Saved(b: seq<Instr>, d: int, x: Reg, y: Reg)
    requires Takes(b, d)
    ensures Takes([Push(x)] + b + [Pop(y)], d + 1)
  {
    assert Shown(0, b, d);
    assert [Push(x)][..0] == [] && [Pop(y)][..0] == [];
    assert Net([]) == 0 && Deepest([]) == 0;
    assert Net([Push(x)]) == 1 && Deepest([Push(x)]) == 1 && Net([Pop(y)]) == -1 && Deepest([Pop(y)]) == 0;
    Joined([Push(x)], b);
    Joined([Push(x)] + b, [Pop(y)]);
  }

  /** The depth the correctness theorem asks for is what the code takes, no more. */
  lemma {:induction false} DepthIs(e: Expr, k: nat)
    ensures Takes(Code(e, k).code, Depth(e))
    decreases e, 3
  {
    match e
    case Num(v) => FlatTakes([Mov(R0, v)]);
    case RegVar(p) => FlatTakes([Movr(R0, RegOf(p))]);
    case AddressOf(pl) => PlaceDepthIs(pl, k);
    case Assign(_, _) => AssignDepth(e, k);
    case LogAnd(_, _) => LogicalDepth(e, k);
    case LogOr(_, _) => LogicalDepth(e, k);
    case Conditional(_, _, _) => ConditionalDepth(e, k);
    case Comma(_, _) => CommaDepth(e, k);
    case Bin(_, _, _) => BinDepth(e, k);
    case _ => UnaryDepth(e, k);
  }

  lemma {:induction false} UnaryDepth(e: Expr, k: nat)
    requires e.Value? || e.AssignReg? || e.Neg? || e.Not?
    ensures Takes(Code(e, k).code, Depth(e))
    decreases e, 0
  {
    match e
    case Value(pl) => PlaceDepthIs(pl, k); ThenFlat(AddressCode(pl, k).code, PlaceDepth(pl), [Loadr(R0, R0)]);
    case AssignReg(p, rhs) => DepthIs(rhs, k); ThenFlat(Code(rhs, k).code, Depth(rhs), [Movr(RegOf(p), R0)]);
    case Neg(x) =>
      DepthIs(x, k);
      ThenFlat(Code(x, k).code, Depth(x), [Mov(R1, 0), Op(SUB, R1, R0), Movr(R0, R1)]);
    case Not(x) =>
      DepthIs(x, k + 2);
      ThenFlat(Code(x, k + 2).code, Depth(x), TestCode(Z, k));
      ThenFlat(Code(x, k + 2).code + TestCode(Z, k), Depth(x), SetCode(0, 1, k, k + 1));
  }

  lemma {:induction false} CommaDepth(e: Expr, k: nat)
    requires e.Comma?
    ensures Takes(Code(e, k).code, Depth(e))
    decreases e, 0
  {
    var v := Code(e.left, k);
    DepthIs(e.left, k);
    DepthIs(e.right, v.next);
    Then(v.code, Depth(e.left), Code(e.right, v.next).code, Depth(e.right));
  }

  lemma {:induction false} BinDepth(e: Expr, k: nat)
    requires e.Bin?
    ensures Takes(Code(e, k).code, Depth(e))
    decreases e, 2
  {
    OperandDepth(e, k);
    ThenFlat(OperandCode(e, k).code, Depth(e), OperatorCode(e.op, OperandCode(e, k).next));
  }

  lemma {:induction false} PlaceDepthIs(pl: Place, k: nat)
    ensures Takes(AddressCode(pl, k).code, PlaceDepth(pl))
    decreases pl, 3
  {
    match pl
    case Local(off) => FlatTakes([Movr(R0, R6)] + OffsetCode(off));
    case Global(a) => FlatTakes([Mov(R0, a)]);
    case At(p) => DepthIs(p, k);
    case Member(b, at) => PlaceDepthIs(b, k); ThenFlat(AddressCode(b, k).code, PlaceDepth(b), OffsetCode(at));
  }

  lemma {:induction false} AssignDepth(e: Expr, k: nat)
    requires e.Assign?
    ensures Takes(Code(e, k).code, Depth(e))
    decreases e, 0
  {
    var pl, rhs := e.place, e.rhs;
    var a := AddressCode(pl, k);
    var v := Code(rhs, a.next);
    PlaceDepthIs(pl, k);
    DepthIs(rhs, a.next);
    if ValueIsSimple(rhs) {
      ThenFlat(a.code, PlaceDepth(pl), [Movr(R1, R0)]);
      Then(a.code + [Movr(R1, R0)], PlaceDepth(pl), v.code, Depth(rhs));
      ThenFlat(a.code + [Movr(R1, R0)] + v.code, Depth(e), [Storer(R1, R0)]);
    } else {
      Saved(v.code, Depth(rhs), R0, R1);
      var saved := [Push(R0)] + v.code + [Pop(R1)];
      Then(a.code, PlaceDepth(pl), saved, Depth(rhs) + 1);
      ThenFlat(a.code + saved, Depth(e), [Storer(R1, R0)]);
      assert a.code + saved + [Storer(R1, R0)] == a.code + [Push(R0)] + v.code + [Pop(R1), Storer(R1, R0)];
    }
  }

  lemma {:induction false} LogicalDepth(e: Expr, k: nat)
    requires e.LogAnd? || e.LogOr?
    ensures Takes(Code(e, k).code, Depth(e))
    decreases e, 0
  {
    var v := Code(e.left, k + 2);
    var w := Code(e.right, v.next);
    var test := TestCode(if e.LogAnd? then Z else NZ, k);
    var set_ := if e.LogAnd? then SetCode(1, 0, k, k + 1) else SetCode(0, 1, k, k + 1);
    DepthIs(e.left, k + 2);
    DepthIs(e.right, v.next);
    ThenFlat(v.code, Depth(e.left), test);
    Then(v.code + test, Depth(e.left), w.code, Depth(e.right));
    ThenFlat(v.code + test + w.code, Depth(e), test);
    ThenFlat(v.code + test + w.code + test, Depth(e), set_);
  }

  lemma {:induction false} ConditionalDepth(e: Expr, k: nat)
    requires e.Conditional?
    ensures Takes(Code(e, k).code, Depth(e))
    decreases e, 0
  {
    var v := Code(e.cond, k + 2);
    var w := Code(e.yes, v.next);
    var x := Code(e.no, w.next);
    var jump, d := [Jmp(k + 1), Label(k)], Max(Depth(e.cond), Depth(e.yes));
    DepthIs(e.cond, k + 2);
    DepthIs(e.yes, v.next);
    DepthIs(e.no, w.next);
    ThenFlat(v.code, Depth(e.cond), TestCode(Z, k));
    Then(v.code + TestCode(Z, k), Depth(e.cond), w.code, Depth(e.yes));
    ThenFlat(v.code + TestCode(Z, k) + w.code, d, jump);
    Then(v.code + TestCode(Z, k) + w.code + jump, d, x.code, Depth(e.no));
    ThenFlat(v.code + TestCode(Z, k) + w.code + jump + x.code, Depth(e), [Label(k + 1)]);
  }

  lemma {:induction false} OperandDepth(e: Expr, k: nat)
    requires e.Bin?
    ensures Takes(OperandCode(e, k).code, Depth(e))
    decreases e, 1
  {
    if IsConst(e.right) { ConstDepth(e, e.left, e.right.value, k); }
    else if IsConst(e.left) && Commutative(e.op) { ConstDepth(e, e.right, e.left.value, k); }
    else { BothDepth(e.left, e.right, e, k); }
  }

  lemma {:induction false} ConstDepth(e: Expr, x: Expr, n: u32, k: nat)
    requires x < e
    ensures Takes(Code(x, k).code + [Mov(R1, n)], Depth(x))
    decreases e, 0
  {
    DepthIs(x, k);
    ThenFlat(Code(x, k).code, Depth(x), [Mov(R1, n)]);
  }

  lemma {:induction false} BothDepth(l: Expr, r: Expr, e: Expr, k: nat)
    requires l < e && r < e
    ensures var w := Code(r, k);
      var v := Code(l, w.next);
      && Takes(w.code + [Movr(R1, R0)] + v.code, Greater(Depth(l), Depth(r)))
      && Takes(w.code + [Push(R0)] + v.code + [Pop(R1)], Greater(Depth(l) + 1, Depth(r)))
    decreases e, 0
  {
    var w := Code(r, k);
    DepthIs(r, k);
    DepthIs(l, w.next);
    WaitInReg(w.code, Depth(r), Code(l, w.next).code, Depth(l));
    WaitOnStack(w.code, Depth(r), Code(l, w.next).code, Depth(l));
  }

  lemma WaitInReg(w: seq<Instr>, d: nat, v: seq<Instr>, d': nat)
    requires Takes(w, d) && Takes(v, d')
    ensures Takes(w + [Movr(R1, R0)] + v, Greater(d, d'))
  {
    ThenFlat(w, d, [Movr(R1, R0)]);
    Then(w + [Movr(R1, R0)], d, v, d');
  }

  lemma WaitOnStack(w: seq<Instr>, d: nat, v: seq<Instr>, d': nat)
    requires Takes(w, d) && Takes(v, d')
    ensures Takes(w + [Push(R0)] + v + [Pop(R1)], Greater(d, d' + 1))
  {
    Saved(v, d', R0, R1);
    Then(w, d, [Push(R0)] + v + [Pop(R1)], d' + 1);
    assert w + ([Push(R0)] + v + [Pop(R1)]) == w + [Push(R0)] + v + [Pop(R1)];
  }
}
