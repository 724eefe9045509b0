module MixedWidths {
  // Booleans held at different widths: `in` yields 64 bits where other conditions yield one. In a comparison the
  // narrower right operand is sign-extended; an assignment stores all 64 bits in the variable's single byte.

  import opened Words
  import opened Cfg
  import opened Lower
  import opened Growth
  import opened Simulation
  import opened ExprCorrect
  import opened Statements
  import opened ExprShape
  import opened StmtCorrect
  import S = Source

  /** A sign-extended true is all ones. */
  lemma ExtendedFlag(y: bool)
    ensures CastWord(SExt, Flag(y), 1, 64) == if y then WORD - 1 else 0
  {
    Pow2Of64();
    assert Pow2(1) == 2 * Pow2(0) == 2;
  }

  lemma ComparedFlags(op: S.RelOp, x: bool, y: bool)
    requires op == S.EqOp || op == S.NeOp
    ensures var right := if op == S.EqOp then x == y else x != y;
      Compare(MachinePred(op), Flag(x), CastWord(SExt, Flag(y), 1, 64), 64) == right <==> !(x && y)
  {
    ExtendedFlag(y);
  }

  /** With a wide left and a narrow right operand the comparison is emitted and run, and its result is the source's
      exactly when the operands are not both true. */
  lemma {:induction false} MixedComparison(code: seq<Block>, e: S.Expr, env: S.Env, s: S.Store, g: Gen, c: Config)
    returns (n: nat, d: Config, result: bool)
    requires e.Rel? && (e.rel == S.EqOp || e.rel == S.NeOp) && S.MixedEquality(e.l, e.r)
    requires Starts(e.l, env, S.BoolT, s, g, c) && S.HasType(e.r, env, S.BoolT)
    requires S.Eval(e.l, s, g.checks).Val? && S.Eval(e.r, s, g.checks).Val? && Ext(code, LowerBinary(e, g).0.blocks)
    ensures d == Run(code, c, n) && At(d, LowerBinary(e, g).0) && Holds(d, LowerBinary(e, g).1.op, Flag(result))
    ensures var x, y := S.Eval(e.l, s, g.checks).v, S.Eval(e.r, s, g.checks).v;
      x.B? && y.B? && (S.Eval(e, s, g.checks) == S.Val(S.B(result)) <==> !(x.b && y.b))
  {
    hide LowerExpr, Ext, SameRegs, MemOk, S.HasType, S.Rep, Known, Run, S.Fits, Compare, CastWord;
    RepPositive(e.l);
    RepPositive(e.r);
    var (g1, a) := LowerExpr(e.l, g);
    var (g2, b0) := LowerExpr(e.r, g1);
    BinaryCode(code, e, g);
    n, d := ExprRuns(code, e.l, env, S.BoolT, s, g, c);
    var c1 := d;
    var m;
    m, d := ExprRuns(code, e.r, env, S.BoolT, s, g1, c1);
    Then(code, c, n, c1, m, d);
    n := n + m;
    var c2 := d;
    var x, y := S.Eval(e.l, s, g.checks).v.b, S.Eval(e.r, s, g.checks).v.b;
    HoldsLater(c1, c2, g1, a.op, Flag(x));
    var i := Cast(g2.regs, SExt, b0.op, 1, 64);
    var c3 := DefineRuns(code, g2, i, c2, CastWord(SExt, Flag(y), 1, 64));
    Then(code, c, n, c2, 1, c3);
    KnownLater(g1, g2, a.op);
    HoldsLater(c2, c3, g2, a.op, Flag(x));
    var (g3, b) := Define(g2, i);
    var j := ICmp(g3.regs, MachinePred(e.rel), a.op, b, 64);
    result := Compare(MachinePred(e.rel), Flag(x), CastWord(SExt, Flag(y), 1, 64), 64);
    d := DefineRuns(code, g3, j, c3, Flag(result));
    Then(code, c, n + 1, c3, 1, d);
    n := n + 2;
    ComparedFlags(e.rel, x, y);
  }

  /** `7 in arr`, over an array of one element. */
  const SEVEN_IN := S.Member(S.IntLit(7), 0, 1, false)
  const SEVEN: S.Store := map[0 := S.A([7])]
  const EMPTY := Gen([[]], 0, 0, 0, [], NoTarget, true)
  const START := Running(0, 0, 0, map[], map[Slot(0, 64) := [7]])

  /** `(7 in arr) == true` over an array that holds 7, lowered into an empty block and run: the source yields true, the
      machine ends with false in the result. */
  lemma SevenIsInSeven() returns (n: nat, d: Config)
    ensures var e := S.Rel(S.EqOp, SEVEN_IN, S.BoolLit(true));
      var (h, v) := LowerBinary(e, EMPTY);
      && S.Eval(e, SEVEN, true) == S.Val(S.B(true))
      && d == Run(h.blocks, START, n) && At(d, h) && Holds(d, v.op, Flag(false))
  {
    hide LowerBinary, Run, Starts;
    var e := S.Rel(S.EqOp, SEVEN_IN, S.BoolLit(true));
    SevenStarts();
    var result;
    n, d, result := MixedComparison(LowerBinary(e, EMPTY).0.blocks, e, map[0 := S.Array(1)], SEVEN, EMPTY, START);
  }

  lemma SevenStarts()
    ensures Starts(SEVEN_IN, map[0 := S.Array(1)], S.BoolT, SEVEN, EMPTY, START) && S.Eval(SEVEN_IN, SEVEN, true) == S.Val(S.B(true))
  {
    assert Cells(SEVEN[0]) == [7];
    assert 7 in [7];
  }

  const FLAG_STORE: S.Store := SEVEN[1 := S.B(false)]
  const FLAG_START := Running(0, 0, 0, map[], map[Slot(0, 64) := [7], Slot(1, 1) := [0]])

  /** `b = 7 in arr` over an array that holds 7, lowered and run: the source sets b, the machine's store is wider than b. */
  lemma FlagOverwritten() returns (n: nat)
    ensures var st := S.Assign(1, S.BoolT, S.Plain, SEVEN_IN);
      && S.Exec(st, FLAG_STORE, true, 0) == S.Normal(FLAG_STORE[1 := S.B(true)])
      && Run(LowerStmt(st, EMPTY).blocks, FLAG_START, n) == Stuck
  {
    hide LowerStmt, Run, AssignBegins, Reached;
    var st := S.Assign(1, S.BoolT, S.Plain, SEVEN_IN);
    FlagBegins();
    var d;
    n, d := AssignStores(LowerStmt(st, EMPTY).blocks, st, map[0 := S.Array(1), 1 := S.Scalar(S.BoolT)], FLAG_STORE, EMPTY, FLAG_START, 0,
                         Places(NoTarget, NoTarget, NoTarget));
  }

  lemma FlagBegins()
    ensures var st := S.Assign(1, S.BoolT, S.Plain, SEVEN_IN);
      && AssignBegins(st, map[0 := S.Array(1), 1 := S.Scalar(S.BoolT)], FLAG_STORE, EMPTY, FLAG_START)
      && S.Exec(st, FLAG_STORE, true, 0) == S.Normal(FLAG_STORE[1 := S.B(true)]) && S.Rep(SEVEN_IN) == 64
  {
    assert Cells(FLAG_STORE[0]) == [7] && Cells(FLAG_STORE[1]) == [0];
    assert 7 in [7];
    assert Ready(EMPTY);
    assert S.Eval(SEVEN_IN, FLAG_STORE, true) == S.Val(S.B(true)) by { assert S.Eval(S.IntLit(7), FLAG_STORE, true) == S.Val(S.I(7)); }
    assert S.Updated(S.Plain, S.B(false), S.B(true)) == S.Val(S.B(true));
  }
}
