module ExprCorrect {
  // Running the code emitted for an expression yields the expression's value; it traps exactly when an index
  // that is actually evaluated is out of bounds, and is undefined exactly when the source is.

  import opened Words
  import opened Cfg
  import opened Lower
  import opened Growth
  import opened Simulation
  import opened Arithmetic
  import opened SearchLoop
  import S = Source

  /** Where a run that started in c, with the builder at g, must end. */
  ghost predicate Outcome(o: S.Outcome, ty: S.Ty, s: S.Store, g: Gen, c: Config, h: Gen, op: Operand, d: Config) {
    match o
    case Val(v) =>
      && S.ValueFits(v, S.Scalar(ty)) && At(d, h) && Holds(d, op, Encode(v))
      && SameRegs(c, d, g.regs) && MemOk(s, d.mem)
    case OutOfBounds => d == Trapped
    case Undefined => d == Stuck
  }

  ghost predicate Starts(e: S.Expr, env: S.Env, ty: S.Ty, s: S.Store, g: Gen, c: Config) {
    S.HasType(e, env, ty) && S.Fits(s, env) && At(c, g) && MemOk(s, c.mem)
  }

  lemma {:induction false} ExprRuns(code: seq<Block>, e: S.Expr, env: S.Env, ty: S.Ty, s: S.Store, g: Gen, c: Config)
    returns (n: nat, d: Config)
    requires Starts(e, env, ty, s, g, c) && Ext(code, LowerExpr(e, g).0.blocks)
    ensures d == Run(code, c, n)
    ensures var (h, v) := LowerExpr(e, g); Outcome(S.Eval(e, s, g.checks), ty, s, g, c, h, v.op, d)
    decreases e, 3
  {
    hide Ext, SameRegs, MemOk;
    n, d := CaseRuns(code, e, env, ty, s, g, c, LowerExpr(e, g));
  }

  lemma {:induction false} CaseRuns(code: seq<Block>, e: S.Expr, env: S.Env, ty: S.Ty, s: S.Store, g: Gen, c: Config, r: (Gen, Typed))
    returns (n: nat, d: Config)
    requires Starts(e, env, ty, s, g, c) && r == LowerExpr(e, g) && Ext(code, r.0.blocks)
    ensures d == Run(code, c, n)
    ensures Outcome(S.Eval(e, s, g.checks), ty, s, g, c, r.0, r.1.op, d)
    decreases e, 2
  {
    hide LowerUnary, LowerBinary, LowerLogical, LowerOrElse, LowerTernary, LowerIndex, LowerMember, Ext;
    match e
    case IntLit(k) =>
      n, d := 0, c;
    case BoolLit(_) => n, d := 0, c;
    case Var(_, _) => n, d := VarRuns(code, e, env, ty, s, g, c);
    case Negate(_) => n, d := UnaryRuns(code, e, env, ty, s, g, c);
    case Complement(_) => n, d := UnaryRuns(code, e, env, ty, s, g, c);
    case Not(_) => n, d := NotRuns(code, e, env, ty, s, g, c);
    case Arith(_, _, _) => n, d := BinaryRuns(code, e, env, ty, s, g, c);
    case Rel(_, _, _) => n, d := BinaryRuns(code, e, env, ty, s, g, c);
    case Logical(_, _, _) => n, d := LogicalRuns(code, e, env, ty, s, g, c);
    case OrElse(_, _) => n, d := OrElseRuns(code, e, env, ty, s, g, c);
    case Ternary(_, _, _) => n, d := TernaryRuns(code, e, env, ty, s, g, c);
    case Index(_, _, _) => n, d := IndexRuns(code, e, env, ty, s, g, c);
    case Member(_, _, _, _) => n, d := MemberRuns(code, e, env, ty, s, g, c);
  }

  lemma VarRuns(code: seq<Block>, e: S.Expr, env: S.Env, ty: S.Ty, s: S.Store, g: Gen, c: Config)
    returns (n: nat, d: Config)
    requires e.Var? && Starts(e, env, ty, s, g, c) && Ext(code, Define(g, Load(g.regs, Slot(e.x, S.WidthOf(e.ty)), Imm(0))).0.blocks)
    ensures d == Run(code, c, n)
    ensures Outcome(S.Eval(e, s, g.checks), ty, s, g, c, Define(g, Load(g.regs, Slot(e.x, S.WidthOf(e.ty)), Imm(0))).0, Reg(g.regs), d)
  {
    assert e.x in env && S.ValueFits(s[e.x], S.Scalar(ty));
    n := 1;
    d := DefineRuns(code, g, Load(g.regs, Slot(e.x, S.WidthOf(e.ty)), Imm(0)), c, Encode(s[e.x]));
  }

  function UnaryInstr(e: S.Expr, dst: nat, a: Operand): Instr {
    if e.Negate? then Binary(dst, Sub, Imm(0), a) else Binary(dst, Xor, a, Imm(WORD - 1))
  }

  lemma UnaryOperatorRuns(code: seq<Block>, e: S.Expr, g: Gen, a: Operand, x: int, c: Config) returns (d: Config)
    requires (e.Negate? || e.Complement?) && IsInt64(x) && At(c, g) && Holds(c, a, ToWord(x))
    requires Ext(code, Emit(g, UnaryInstr(e, g.regs, a)).blocks)
    ensures d == Run(code, c, 1) && At(d, Define(g, UnaryInstr(e, g.regs, a)).0) && SameRegs(c, d, g.regs) && d.mem == c.mem
    ensures var y := if e.Negate? then Wrap(-x) else -x - 1; IsInt64(y) && Holds(d, Reg(g.regs), ToWord(y))
  {
    hide BitXor, Ext, SameRegs, Define, Emit;
    NegateAgrees(x);
    ComplementAgrees(x);
    d := DefineRuns(code, g, UnaryInstr(e, g.regs, a), c, if e.Negate? then ToWord(Wrap(-x)) else ToWord(-x - 1));
  }

  lemma {:induction false} UnaryRuns(code: seq<Block>, e: S.Expr, env: S.Env, ty: S.Ty, s: S.Store, g: Gen, c: Config)
    returns (n: nat, d: Config)
    requires (e.Negate? || e.Complement?) && Starts(e, env, ty, s, g, c) && Ext(code, LowerUnary(e, g).0.blocks)
    ensures d == Run(code, c, n)
    ensures Outcome(S.Eval(e, s, g.checks), ty, s, g, c, LowerUnary(e, g).0, LowerUnary(e, g).1.op, d)
    decreases e, 0
  {
    hide LowerExpr, Ext, SameRegs, MemOk, BitXor, Define, Emit, ToWord, Wrap, Known, Run, Grows;
    var (g1, v) := LowerExpr(e.e, g);
    UnaryCode(e, g);
    Descend(code, g1, UnaryInstr(e, g1.regs, v.op));
    var o := S.Eval(e.e, s, g.checks);
    n, d := ExprRuns(code, e.e, env, S.IntT, s, g, c);
    if o.Val? {
      var c1 := d;
      d := UnaryOperatorRuns(code, e, g1, v.op, o.v.n, c1);
      Then(code, c, n, c1, 1, d);
      n := n + 1;
      SameRegsTrans(c, c1, d, g.regs, g1.regs);
    }
  }

  lemma UnaryCode(e: S.Expr, g: Gen)
    requires (e.Negate? || e.Complement?) && Ok(g)
    ensures var (g1, v) := LowerExpr(e.e, g);
      var i := UnaryInstr(e, g1.regs, v.op);
      LowerUnary(e, g).0 == Define(g1, i).0 && LowerUnary(e, g).1.op == Reg(g1.regs)
      && LowerUnary(e, g).0.blocks == Emit(g1, i).blocks
  {
    hide LowerExpr;
  }

  lemma {:induction false} NotRuns(code: seq<Block>, e: S.Expr, env: S.Env, ty: S.Ty, s: S.Store, g: Gen, c: Config)
    returns (n: nat, d: Config)
    requires e.Not? && Starts(e, env, ty, s, g, c) && Ext(code, LowerUnary(e, g).0.blocks)
    ensures d == Run(code, c, n)
    ensures Outcome(S.Eval(e, s, g.checks), ty, s, g, c, LowerUnary(e, g).0, LowerUnary(e, g).1.op, d)
    decreases e, 0
  {
    hide LowerExpr, Ext, SameRegs, MemOk, Run, Resize, Grows, TestZero;
    var (g1, v) := LowerExpr(e.e, g);
    var (g2, z) := TestZero(g1, Eq, v);
    assert Ext(code, Resize(g2, Typed(z, 1), v.width).0.blocks);
    ResizeGrows(g2, Typed(z, 1), v.width);
    ExtDown(code, g2, Resize(g2, Typed(z, 1), v.width).0);
    TestZeroGrows(g1, Eq, v);
    ExtDown(code, g1, g2);
    var o := S.Eval(e.e, s, g.checks);
    n, d := ExprRuns(code, e.e, env, S.BoolT, s, g, c);
    if o.Val? {
      var c1 := d;
      var c2 := TestZeroRuns(code, g1, Eq, v, c1, Flag(o.v.b));
      Then(code, c, n, c1, 1, c2);
      SameRegsTrans(c, c1, c2, g.regs, g1.regs);
      RepPositive(e);
      var m;
      m, d := ResizeRuns(code, g2, Typed(z, 1), v.width, c2, !o.v.b);
      Then(code, c, n + 1, c2, m, d);
      n := n + 1 + m;
      SameRegsTrans(c, c2, d, g.regs, g2.regs);
    }
  }

  lemma {:induction false} RepPositive(e: S.Expr)
    ensures S.Rep(e) == 1 || S.Rep(e) == 64
  {
    match e
    case IntLit(_) =>
    case BoolLit(_) =>
    case Var(_, _) =>
    case Negate(e1) => RepPositive(e1);
    case Complement(e1) => RepPositive(e1);
    case Not(e1) => RepPositive(e1);
    case Arith(_, l, _) => RepPositive(l);
    case Rel(_, _, _) =>
    case Logical(_, l, _) => RepPositive(l);
    case Ternary(_, t, _) => RepPositive(t);
    case OrElse(l, _) => RepPositive(l);
    case Index(_, _, _) =>
    case Member(_, _, _, _) =>
  }

  /** Integers are always held in 64 bits. */
  lemma {:induction false} IntRep(e: S.Expr, env: S.Env)
    requires S.HasType(e, env, S.IntT)
    ensures S.Rep(e) == 64
  {
    match e
    case IntLit(_) =>
    case Var(_, _) =>
    case Negate(e1) => IntRep(e1, env);
    case Complement(e1) => IntRep(e1, env);
    case Arith(_, l, _) => IntRep(l, env);
    case Ternary(_, t, _) => IntRep(t, env);
    case OrElse(l, _) => IntRep(l, env);
    case Index(_, _, _) =>
    case _ =>
  }

  // ---- binary operators ----

  function BinaryInstr(e: S.Expr, dst: nat, a: Operand, b: Operand, width: nat): Instr
    requires e.Arith? || e.Rel?
  {
    if e.Arith? then Binary(dst, MachineOp(e.op), a, b) else ICmp(dst, MachinePred(e.rel), a, b, width)
  }

  /** The meaning of the operator on two values. */
  function Combine(e: S.Expr, x: S.Value, y: S.Value): S.Outcome
    requires e.Arith? || e.Rel?
  {
    if e.Arith? then (if x.I? && y.I? then S.ArithInt(e.op, x.n, y.n) else S.Undefined)
    else if x.I? && y.I? then S.Val(S.B(S.RelInt(e.rel, x.n, y.n)))
    else if x.B? && y.B? && e.rel == S.EqOp then S.Val(S.B(x.b == y.b))
    else if x.B? && y.B? && e.rel == S.NeOp then S.Val(S.B(x.b != y.b))
    else S.Undefined
  }

  lemma OperatorRuns(code: seq<Block>, e: S.Expr, g: Gen, a: Operand, b: Operand, width: nat, x: S.Value, y: S.Value, tl: S.Ty, c: Config)
    returns (d: Config)
    requires (e.Arith? && tl == S.IntT) || (e.Rel? && (tl == S.BoolT ==> e.rel == S.EqOp || e.rel == S.NeOp))
    requires S.ValueFits(x, S.Scalar(tl)) && S.ValueFits(y, S.Scalar(tl)) && (tl == S.IntT ==> width == 64)
    requires At(c, g) && Holds(c, a, Encode(x)) && Holds(c, b, Encode(y))
    requires Ext(code, Emit(g, BinaryInstr(e, g.regs, a, b, width)).blocks)
    ensures d == Run(code, c, 1)
    ensures match Combine(e, x, y)
      case Val(v) =>
        && S.ValueFits(v, S.Scalar(if e.Arith? then S.IntT else S.BoolT))
        && At(d, Define(g, BinaryInstr(e, g.regs, a, b, width)).0) && Holds(d, Reg(g.regs), Encode(v))
        && SameRegs(c, d, g.regs) && d.mem == c.mem
      case Undefined => d == Stuck
      case OutOfBounds => false
  {
    hide BinWord, Compare, S.ArithInt, S.RelInt;
    var i := BinaryInstr(e, g.regs, a, b, width);
    if tl == S.IntT {
      ArithAgreesIf(e, x.n, y.n);
    } else {
      FlagsCompare(e.rel, x.b, y.b, width);
    }
    var o := Combine(e, x, y);
    if o.Val? {
      d := DefineRuns(code, g, i, c, Encode(o.v));
    } else {
      StepEmitted(code, g, i, c);
      d := Run(code, c, 1);
    }
  }

  lemma ArithAgreesIf(e: S.Expr, a: int, b: int)
    requires (e.Arith? || e.Rel?) && IsInt64(a) && IsInt64(b)
    ensures e.Arith? ==> match S.ArithInt(e.op, a, b)
      case Val(v) => v.I? && IsInt64(v.n) && BinWord(MachineOp(e.op), ToWord(a), ToWord(b)) == Some(ToWord(v.n))
      case Undefined => BinWord(MachineOp(e.op), ToWord(a), ToWord(b)) == None
      case OutOfBounds => false
    ensures e.Rel? ==> Compare(MachinePred(e.rel), ToWord(a), ToWord(b), 64) == S.RelInt(e.rel, a, b)
  {
    if e.Arith? { ArithAgrees(e.op, a, b); } else { RelAgrees(e.rel, a, b); }
  }

  lemma FlagsCompare(op: S.RelOp, a: bool, b: bool, width: nat)
    requires op == S.EqOp || op == S.NeOp
    ensures Compare(MachinePred(op), Flag(a), Flag(b), width) == if op == S.EqOp then a == b else a != b
  {
  }

  /** The right operand is at least as wide as the left one, so that coercing it keeps its value. */
  lemma CoerceRuns(code: seq<Block>, g: Gen, v: Typed, width: nat, x: S.Value, t: S.Ty, c: Config) returns (n: nat, d: Config)
    requires At(c, g) && Known(g, v.op) && Ext(code, Coerce(g, v, width).0.blocks) && Holds(c, v.op, Encode(x))
    requires S.ValueFits(x, S.Scalar(t)) && 0 < width <= v.width && (t == S.IntT ==> width == v.width)
    ensures d == Run(code, c, n) && At(d, Coerce(g, v, width).0) && Holds(d, Coerce(g, v, width).1, Encode(x))
    ensures SameRegs(c, d, g.regs) && d.mem == c.mem
  {
    if width == v.width {
      n, d := 0, c;
    } else {
      n, d := ResizeRuns(code, g, v, width, c, x.b);
    }
  }

  /** The type of a binary operator's operands. */
  function OperandTy(e: S.Expr, env: S.Env): S.Ty
    requires e.Arith? || e.Rel?
  {
    if S.HasType(e.l, env, S.IntT) && S.HasType(e.r, env, S.IntT) then S.IntT else S.BoolT
  }

  lemma OperandWidths(e: S.Expr, env: S.Env, ty: S.Ty)
    requires (e.Arith? || e.Rel?) && S.HasType(e, env, ty)
    ensures var t := OperandTy(e, env);
      && S.HasType(e.l, env, t) && S.HasType(e.r, env, t)
      && 0 < S.Rep(e.l) <= S.Rep(e.r) && (t == S.IntT ==> S.Rep(e.l) == S.Rep(e.r) == 64)
      && ty == (if e.Arith? then S.IntT else S.BoolT)
      && ((e.Arith? && t == S.IntT) || (e.Rel? && (t == S.BoolT ==> e.rel == S.EqOp || e.rel == S.NeOp)))
  {
    RepPositive(e.l);
    RepPositive(e.r);
    if OperandTy(e, env) == S.IntT {
      IntRep(e.l, env);
      IntRep(e.r, env);
    }
  }

  lemma {:induction false} BinaryRuns(code: seq<Block>, e: S.Expr, env: S.Env, ty: S.Ty, s: S.Store, g: Gen, c: Config)
    returns (n: nat, d: Config)
    requires (e.Arith? || e.Rel?) && Starts(e, env, ty, s, g, c) && Ext(code, LowerBinary(e, g).0.blocks)
    ensures d == Run(code, c, n)
    ensures Outcome(S.Eval(e, s, g.checks), ty, s, g, c, LowerBinary(e, g).0, LowerBinary(e, g).1.op, d)
    decreases e, 0
  {
    hide LowerExpr, Coerce, Define, Emit, Ext, SameRegs, MemOk, S.ArithInt, S.HasType, S.Rep, Known, Grows, MachineOp, MachinePred, Run, BinaryInstr, S.Fits;
    OperandWidths(e, env, ty);
    var t := OperandTy(e, env);
    var (g1, a) := LowerExpr(e.l, g);
    var (g2, b0) := LowerExpr(e.r, g1);
    var (g3, b) := Coerce(g2, b0, a.width);
    BinaryCode(code, e, g);
    var o1 := S.Eval(e.l, s, g.checks);
    var o2 := S.Eval(e.r, s, g.checks);
    n, d := ExprRuns(code, e.l, env, t, s, g, c);
    if o1.Val? {
      var c1 := d;
      var m;
      m, d := ExprRuns(code, e.r, env, t, s, g1, c1);
      Then(code, c, n, c1, m, d);
      n := n + m;
      if o2.Val? {
        var c2 := d;
        HoldsLater(c1, c2, g1, a.op, Encode(o1.v));
        var c3;
        m, c3 := CoerceRuns(code, g2, b0, a.width, o2.v, t, c2);
        Then(code, c, n, c2, m, c3);
        assert Known(g2, a.op) by { KnownLater(g1, g2, a.op); }
        HoldsLater(c2, c3, g2, a.op, Encode(o1.v));
        d := OperatorRuns(code, e, g3, a.op, b, a.width, o1.v, o2.v, t, c3);
        Then(code, c, n + m, c3, 1, d);
        n := n + m + 1;
        assert S.Eval(e, s, g.checks) == Combine(e, o1.v, o2.v);
        if Combine(e, o1.v, o2.v).Val? {
          SameRegsTrans(c, c1, c2, g.regs, g1.regs);
          SameRegsTrans(c, c2, c3, g.regs, g2.regs);
          SameRegsTrans(c, c3, d, g.regs, g3.regs);
        }
      }
    }
  }

  lemma KnownLater(g: Gen, h: Gen, op: Operand)
    requires Known(g, op) && After(g, h)
    ensures Known(h, op)
  {
  }

  /** All stages of a binary operator are in the code. */
  lemma BinaryCode(code: seq<Block>, e: S.Expr, g: Gen)
    requires Ok(g) && (e.Arith? || e.Rel?) && Ext(code, LowerBinary(e, g).0.blocks)
    ensures var (g1, a) := LowerExpr(e.l, g);
      var (g2, b0) := LowerExpr(e.r, g1);
      var (g3, b) := Coerce(g2, b0, a.width);
      var i := BinaryInstr(e, g3.regs, a.op, b, a.width);
      && Ext(code, g1.blocks) && Ext(code, g2.blocks) && Ext(code, g3.blocks)
      && LowerBinary(e, g).0 == Define(g3, i).0 && LowerBinary(e, g).1.op == Reg(g3.regs) && Ext(code, Emit(g3, i).blocks)
  {
    hide LowerExpr, Coerce, Ext, Grows;
    var (g1, a) := LowerExpr(e.l, g);
    var (g2, b0) := LowerExpr(e.r, g1);
    var (g3, b) := Coerce(g2, b0, a.width);
    Descend(code, g3, BinaryInstr(e, g3.regs, a.op, b, a.width));
    ResizeGrows(g2, b0, a.width);
    ExtDown(code, g2, g3);
    ExprGrows(e.r, g1);
    ExtDown(code, g1, g2);
  }

  // ---- operators that branch ----

  /** A run of n steps that keeps the registers below k. */
  ghost predicate Goes(code: seq<Block>, c: Config, n: nat, d: Config, k: nat) {
    Run(code, c, n) == d && SameRegs(c, d, k)
  }

  lemma GoesOn(code: seq<Block>, b: Config, m: nat, c: Config, j: nat, n: nat, d: Config, k: nat)
    requires Goes(code, b, m, c, j) && Goes(code, c, n, d, k) && j <= k
    ensures Goes(code, b, m + n, d, j)
  {
    Then(code, b, m, c, n, d);
    SameRegsTrans(b, c, d, j, k);
  }

  /** While the right operand is lowered and tested, the merge block stays empty and the builder stays away from
      both the fork and the merge block. */
  lemma MergeUntouched(g: Gen, cond: Operand, rhsOnTrue: bool, e: S.Expr)
    requires Ok(g)
    ensures var f := Fork(g, cond, rhsOnTrue);
      var (h, v) := LowerExpr(e, f);
      var k := Truth(h, v).0;
      && Grows(g, f) && Grows(f, h) && Grows(h, k)
      && h.blocks[|g.blocks| + 1] == [] && h.cur != g.cur && h.cur != |g.blocks| + 1
      && k.blocks[|g.blocks| + 1] == [] && k.cur == h.cur
  {
    hide LowerExpr;
    var f := Fork(g, cond, rhsOnTrue);
    var (h, v) := LowerExpr(e, f);
    ForkGrows(g, cond, rhsOnTrue);
    ExprGrows(e, f);
    TruthGrows(h, v);
  }

  /** The stages of `&&` and `||` are in the code. */
  lemma LogicalCode(code: seq<Block>, e: S.Expr, g: Gen)
    requires Ok(g) && e.Logical? && Ext(code, LowerLogical(e, g).0.blocks)
    ensures var (g1, a) := LowerExpr(e.l, g);
      var (g2, lhs) := Truth(g1, a);
      var f := Fork(g2, lhs, e.isAnd);
      var (g3, b) := LowerExpr(e.r, f);
      var (g4, rhs) := Truth(g3, b);
      var (g5, phi) := Join(g4, |g2.blocks| + 1, Imm(Flag(!e.isAnd)), g2.cur, rhs);
      && Ext(code, g1.blocks) && Ext(code, g2.blocks) && Ext(code, f.blocks) && Ext(code, g3.blocks)
      && Ext(code, g4.blocks) && Ext(code, g5.blocks)
      && LowerLogical(e, g) == (Resize(g5, Typed(phi, 1), a.width).0, Typed(Resize(g5, Typed(phi, 1), a.width).1, a.width))
  {
    hide LowerExpr, LowerLogical, Truth, Resize, Join, Fork, Ext, Grows;
    LogicalShape(e, g);
    var (g1, a) := LowerExpr(e.l, g);
    var (g2, lhs) := Truth(g1, a);
    var f := Fork(g2, lhs, e.isAnd);
    var (g3, b) := LowerExpr(e.r, f);
    var (g4, rhs) := Truth(g3, b);
    var merge, v0 := |g2.blocks| + 1, Imm(Flag(!e.isAnd));
    var (g5, phi) := Join(g4, merge, v0, g2.cur, rhs);
    MergeUntouched(g2, lhs, e.isAnd, e.r);
    ResizeGrows(g5, Typed(phi, 1), a.width);
    ExtDown(code, g5, LowerLogical(e, g).0);
    JoinDown(code, g4, merge, v0, g2.cur, rhs);
    ExtDown(code, g3, g4);
    ExtDown(code, f, g3);
    ExtDown(code, g2, f);
    TruthGrows(g1, a);
    ExtDown(code, g1, g2);
  }

  lemma LogicalShape(e: S.Expr, g: Gen)
    requires Ok(g) && e.Logical?
    ensures var (g1, a) := LowerExpr(e.l, g);
      var (g2, lhs) := Truth(g1, a);
      var f := Fork(g2, lhs, e.isAnd);
      var (g3, b) := LowerExpr(e.r, f);
      var (g4, rhs) := Truth(g3, b);
      var (g5, phi) := Join(g4, |g2.blocks| + 1, Imm(Flag(!e.isAnd)), g2.cur, rhs);
      LowerLogical(e, g) == (Resize(g5, Typed(phi, 1), a.width).0, Typed(Resize(g5, Typed(phi, 1), a.width).1, a.width))
  {
    hide LowerExpr, Truth, Resize, Join, Fork;
  }

  /** The right operand of `&&` or `||`, from its first block to the merge block. */
  lemma {:induction false} LogicalRhsRuns(code: seq<Block>, e: S.Expr, env: S.Env, s: S.Store, g2: Gen, lhs: Operand, c3: Config)
    returns (n: nat, d: Config)
    requires Ok(g2) && e.Logical?
    requires Starts(e.r, env, S.BoolT, s, Fork(g2, lhs, e.isAnd), c3)
    requires var f := Fork(g2, lhs, e.isAnd);
      var (g3, b) := LowerExpr(e.r, f);
      var (g4, rhs) := Truth(g3, b);
      Ext(code, g3.blocks) && Ext(code, g4.blocks)
      && Ext(code, Join(g4, |g2.blocks| + 1, Imm(Flag(!e.isAnd)), g2.cur, rhs).0.blocks)
    ensures d == Run(code, c3, n)
    ensures var f := Fork(g2, lhs, e.isAnd);
      var (g3, b) := LowerExpr(e.r, f);
      var (g4, rhs) := Truth(g3, b);
      var (g5, phi) := Join(g4, |g2.blocks| + 1, Imm(Flag(!e.isAnd)), g2.cur, rhs);
      Outcome(S.Eval(e.r, s, f.checks), S.BoolT, s, f, c3, g5, phi, d)
    decreases e, 0
  {
    hide LowerExpr, LowerLogical, Truth, Join, Fork, Ext, SameRegs, MemOk, Run, Grows, S.Rep, S.Fits;
    var f := Fork(g2, lhs, e.isAnd);
    var (g3, b) := LowerExpr(e.r, f);
    var (g4, rhs) := Truth(g3, b);
    MergeUntouched(g2, lhs, e.isAnd, e.r);
    var o2 := S.Eval(e.r, s, f.checks);
    n, d := ExprRuns(code, e.r, env, S.BoolT, s, f, c3);
    if o2.Val? {
      var c4 := d;
      var m, c5 := TruthRuns(code, g3, b, c4, o2.v.b);
      GoesOn(code, c3, n, c4, f.regs, m, c5, g3.regs);
      d := JoinFromRhs(code, g4, |g2.blocks| + 1, Imm(Flag(!e.isAnd)), g2.cur, rhs, c5, Flag(o2.v.b));
      GoesOn(code, c3, n + m, c5, f.regs, 2, d, g4.regs);
      n := n + m + 2;
    }
  }

  /** The left operand, its test and the branch. */
  lemma {:induction false} LogicalLeftRuns(code: seq<Block>, e: S.Expr, env: S.Env, s: S.Store, g: Gen, c: Config) returns (n: nat, d: Config)
    requires e.Logical? && Starts(e, env, S.BoolT, s, g, c)
    requires var (g1, a) := LowerExpr(e.l, g);
      var (g2, lhs) := Truth(g1, a);
      Ext(code, g1.blocks) && Ext(code, g2.blocks) && Ext(code, Fork(g2, lhs, e.isAnd).blocks)
    ensures d == Run(code, c, n)
    ensures var o := S.Eval(e.l, s, g.checks);
      var (g1, a) := LowerExpr(e.l, g);
      var (g2, lhs) := Truth(g1, a);
      match o
      case Val(v) =>
        && v.B? && d.Running? && Goes(code, c, n, d, g.regs) && MemOk(s, d.mem) && d.pc == 0 && d.prev == g2.cur
        && d.bb == (if v.b == e.isAnd then |g2.blocks| else |g2.blocks| + 1)
        && (v.b == e.isAnd ==> At(d, Fork(g2, lhs, e.isAnd)))
      case OutOfBounds => d == Trapped
      case Undefined => d == Stuck
    decreases e, 0
  {
    hide LowerExpr, Truth, Fork, Ext, SameRegs, MemOk, Run, Grows, S.Rep, S.Fits;
    var (g1, a) := LowerExpr(e.l, g);
    var (g2, lhs) := Truth(g1, a);
    var o := S.Eval(e.l, s, g.checks);
    n, d := ExprRuns(code, e.l, env, S.BoolT, s, g, c);
    if o.Val? {
      var c1 := d;
      var m, c2 := TruthRuns(code, g1, a, c1, o.v.b);
      GoesOn(code, c, n, c1, g.regs, m, c2, g1.regs);
      d := ForkRuns(code, g2, lhs, e.isAnd, c2, o.v.b);
      SameRegsFork(c2, d, g2.regs);
      GoesOn(code, c, n + m, c2, g.regs, 1, d, g2.regs);
      n := n + m + 1;
    }
  }

  lemma {:induction false} LogicalRuns(code: seq<Block>, e: S.Expr, env: S.Env, ty: S.Ty, s: S.Store, g: Gen, c: Config)
    returns (n: nat, d: Config)
    requires e.Logical? && Starts(e, env, ty, s, g, c) && Ext(code, LowerLogical(e, g).0.blocks)
    ensures d == Run(code, c, n)
    ensures Outcome(S.Eval(e, s, g.checks), ty, s, g, c, LowerLogical(e, g).0, LowerLogical(e, g).1.op, d)
    decreases e, 1
  {
    hide LowerExpr, LowerLogical, Truth, Resize, Join, Fork, Ext, SameRegs, MemOk, Run, Grows, S.Rep, S.Fits;
    var (g1, a) := LowerExpr(e.l, g);
    var (g2, lhs) := Truth(g1, a);
    var f := Fork(g2, lhs, e.isAnd);
    var (g3, b) := LowerExpr(e.r, f);
    var (g4, rhs) := Truth(g3, b);
    var merge, v0 := |g2.blocks| + 1, Imm(Flag(!e.isAnd));
    var (g5, phi) := Join(g4, merge, v0, g2.cur, rhs);
    LogicalCode(code, e, g);
    MergeUntouched(g2, lhs, e.isAnd, e.r);
    RepPositive(e.l);
    var o1 := S.Eval(e.l, s, g.checks);
    n, d := LogicalLeftRuns(code, e, env, s, g, c);
    if o1.Val? {
      var c3, m, o, c6 := d, 0, o1, d;
      if o1.v.b != e.isAnd {
        c6 := JoinFromFork(code, g4, merge, v0, g2.cur, rhs, c3, Flag(o1.v.b));
        m := 1;
        GoesOn(code, c, n, c3, g.regs, m, c6, g4.regs);
      } else {
        o := S.Eval(e.r, s, g.checks);
        m, c6 := LogicalRhsRuns(code, e, env, s, g2, lhs, c3);
        Then(code, c, n, c3, m, c6);
        if !o.Val? {
          n, d := n + m, c6;
          return;
        }
        GoesOn(code, c, n, c3, g.regs, m, c6, f.regs);
      }
      n := n + m;
      m, d := ResizeRuns(code, g5, Typed(phi, 1), a.width, c6, o.v.b);
      GoesOn(code, c, n, c6, g.regs, m, d, g5.regs);
      n := n + m;
    }
  }

  lemma SameRegsFork(c: Config, d: Config, n: nat)
    requires c.Running? && d.Running? && c.regs == d.regs
    ensures SameRegs(c, d, n)
  {
  }

  // ---- or_else ----

  /** The stages of lowering `l or_else r`. */
  ghost predicate OrElseStages(e: S.Expr, g: Gen, g1: Gen, a: Typed, g2: Gen, z: Operand, f: Gen, g3: Gen, b: Typed) {
    && e.OrElse? && Ok(g) && (g1, a) == LowerExpr(e.l, g) && (g2, z) == TestZero(g1, Eq, a)
    && f == Fork(g2, z, true) && (g3, b) == LowerExpr(e.r, f)
  }

  lemma OrElseShape(e: S.Expr, g: Gen, g1: Gen, a: Typed, g2: Gen, z: Operand, f: Gen, g3: Gen, b: Typed)
    requires OrElseStages(e, g, g1, a, g2, z, f, g3, b)
    ensures var j := Join(g3, |g2.blocks| + 1, a.op, g2.cur, b.op);
      LowerOrElse(e, g) == (j.0, Typed(j.1, a.width))
  {
    hide LowerExpr, TestZero, Join, Fork, S.Rep;
  }

  lemma OrElseCode(code: seq<Block>, e: S.Expr, g: Gen, g1: Gen, a: Typed, g2: Gen, z: Operand, f: Gen, g3: Gen, b: Typed)
    requires OrElseStages(e, g, g1, a, g2, z, f, g3, b) && Ext(code, LowerOrElse(e, g).0.blocks)
    ensures Ext(code, g1.blocks) && Ext(code, g2.blocks) && Ext(code, f.blocks) && Ext(code, g3.blocks)
    ensures Ext(code, Join(g3, |g2.blocks| + 1, a.op, g2.cur, b.op).0.blocks)
    ensures g3.blocks[|g2.blocks| + 1] == [] && g3.cur != g2.cur && g3.cur != |g2.blocks| + 1
  {
    hide LowerExpr, LowerOrElse, TestZero, Join, Fork, Ext, Grows;
    OrElseShape(e, g, g1, a, g2, z, f, g3, b);
    MergeUntouched(g2, z, true, e.r);
    JoinDown(code, g3, |g2.blocks| + 1, a.op, g2.cur, b.op);
    ExtDown(code, f, g3);
    ExtDown(code, g2, f);
    TestZeroGrows(g1, Eq, a);
    ExtDown(code, g1, g2);
  }

  lemma ZeroEncoding(v: S.Value, ty: S.Ty)
    requires S.ValueFits(v, S.Scalar(ty))
    ensures S.IsZero(v) <==> Encode(v) == 0
  {
    if v.I? { ToIntToWord(v.n); }
  }

  lemma {:induction false} OrElseRhsRuns(code: seq<Block>, e: S.Expr, env: S.Env, ty: S.Ty, s: S.Store, g2: Gen, z: Operand, v0: Operand, c3: Config)
    returns (n: nat, d: Config)
    requires Ok(g2) && e.OrElse?
    requires Starts(e.r, env, ty, s, Fork(g2, z, true), c3)
    requires var f := Fork(g2, z, true);
      var (g3, b) := LowerExpr(e.r, f);
      Ext(code, g3.blocks) && Ext(code, Join(g3, |g2.blocks| + 1, v0, g2.cur, b.op).0.blocks)
    ensures d == Run(code, c3, n)
    ensures var f := Fork(g2, z, true);
      var (g3, b) := LowerExpr(e.r, f);
      var (g4, phi) := Join(g3, |g2.blocks| + 1, v0, g2.cur, b.op);
      Outcome(S.Eval(e.r, s, f.checks), ty, s, f, c3, g4, phi, d)
    decreases e, 0
  {
    hide LowerExpr, LowerOrElse, Join, Fork, Ext, SameRegs, MemOk, Run, Grows, S.Rep, S.Fits;
    var f := Fork(g2, z, true);
    var (g3, b) := LowerExpr(e.r, f);
    MergeUntouched(g2, z, true, e.r);
    var o2 := S.Eval(e.r, s, f.checks);
    n, d := ExprRuns(code, e.r, env, ty, s, f, c3);
    if o2.Val? {
      var c4 := d;
      d := JoinFromRhs(code, g3, |g2.blocks| + 1, v0, g2.cur, b.op, c4, Encode(o2.v));
      GoesOn(code, c3, n, c4, f.regs, 2, d, g3.regs);
      n := n + 2;
    }
  }

  lemma {:induction false} OrElseRuns(code: seq<Block>, e: S.Expr, env: S.Env, ty: S.Ty, s: S.Store, g: Gen, c: Config)
    returns (n: nat, d: Config)
    requires e.OrElse? && Starts(e, env, ty, s, g, c) && Ext(code, LowerOrElse(e, g).0.blocks)
    ensures d == Run(code, c, n)
    ensures Outcome(S.Eval(e, s, g.checks), ty, s, g, c, LowerOrElse(e, g).0, LowerOrElse(e, g).1.op, d)
    decreases e, 1
  {
    hide LowerExpr, LowerOrElse, Join, Fork, TestZero, Ext, SameRegs, MemOk, Run, Grows, S.Rep, S.Fits, S.IsZero;
    var (g1, a) := LowerExpr(e.l, g);
    var (g2, z) := TestZero(g1, Eq, a);
    var f := Fork(g2, z, true);
    var (g3, b) := LowerExpr(e.r, f);
    OrElseShape(e, g, g1, a, g2, z, f, g3, b);
    OrElseCode(code, e, g, g1, a, g2, z, f, g3, b);
    var o1 := S.Eval(e.l, s, g.checks);
    n, d := ExprRuns(code, e.l, env, ty, s, g, c);
    if o1.Val? {
      var c1, m := d, 0;
      ZeroEncoding(o1.v, ty);
      var c2 := TestZeroRuns(code, g1, Eq, a, c1, Encode(o1.v));
      GoesOn(code, c, n, c1, g.regs, 1, c2, g1.regs);
      var c3 := ForkRuns(code, g2, z, true, c2, S.IsZero(o1.v));
      SameRegsFork(c2, c3, g2.regs);
      GoesOn(code, c, n + 1, c2, g.regs, 1, c3, g2.regs);
      n := n + 2;
      if S.IsZero(o1.v) {
        m, d := OrElseRhsRuns(code, e, env, ty, s, g2, z, a.op, c3);
        Then(code, c, n, c3, m, d);
        if S.Eval(e.r, s, g.checks).Val? {
          GoesOn(code, c, n, c3, g.regs, m, d, f.regs);
        }
        n := n + m;
      } else {
        HoldsLater(c1, c2, g1, a.op, Encode(o1.v));
        d := JoinFromFork(code, g3, |g2.blocks| + 1, a.op, g2.cur, b.op, c3, Encode(o1.v));
        GoesOn(code, c, n, c3, g.regs, 1, d, g3.regs);
        n := n + 1;
      }
    }
  }

  // ---- the ternary operator ----

  function ElseStart(g2: Gen, g3: Gen): Gen
    requires Ok(g3)
  {
    Move(Emit(g3, Br(|g2.blocks| + 2)), |g2.blocks| + 1)
  }

  /** The stages of lowering `c ? t : f`. */
  ghost predicate TernaryStages(e: S.Expr, g: Gen, g1: Gen, a: Typed, g2: Gen, z: Operand, f: Gen, g3: Gen, tv: Typed,
                                h: Gen, g4: Gen, fv: Typed) {
    && e.Ternary? && Ok(g) && (g1, a) == LowerExpr(e.c, g) && (g2, z) == TestZero(g1, Ne, a)
    && f == Fork3(g2, z) && (g3, tv) == LowerExpr(e.t, f) && h == ElseStart(g2, g3) && Ok(h) && (g4, fv) == LowerExpr(e.f, h)
    && |g2.blocks| + 2 < |g4.blocks|
  }

  lemma TernaryShape(e: S.Expr, g: Gen, g1: Gen, a: Typed, g2: Gen, z: Operand, f: Gen, g3: Gen, tv: Typed,
                     h: Gen, g4: Gen, fv: Typed)
    requires TernaryStages(e, g, g1, a, g2, z, f, g3, tv, h, g4, fv)
    ensures var j := Join(g4, |g2.blocks| + 2, tv.op, g3.cur, fv.op);
      LowerTernary(e, g) == (j.0, Typed(j.1, tv.width))
  {
    hide LowerExpr, TestZero, Join, Fork3, Emit, S.Rep;
  }

  /** While the two branches are lowered the merge block stays empty, and the else block until its turn. */
  lemma TernaryUntouched(g2: Gen, z: Operand, e: S.Expr)
    requires Ok(g2) && e.Ternary?
    ensures var f := Fork3(g2, z);
      var (g3, tv) := LowerExpr(e.t, f);
      var h := ElseStart(g2, g3);
      Ok(h) &&
      var (g4, fv) := LowerExpr(e.f, h);
      && Grows(g2, f) && Grows(f, g3) && Grows(h, g4) && h.blocks[h.cur] == [] && Known(g4, tv.op) && After(g3, h.(cur := g3.cur))
      && |g2.blocks| + 2 < |g4.blocks| && g4.blocks[|g2.blocks| + 2] == []
      && g4.cur != g3.cur && g4.cur != |g2.blocks| + 2 && g3.cur != |g2.blocks| + 2
  {
    hide LowerExpr;
    var f := Fork3(g2, z);
    Fork3Grows(g2, z);
    var (g3, tv) := LowerExpr(e.t, f);
    ExprGrows(e.t, f);
    var h := ElseStart(g2, g3);
    var (g4, fv) := LowerExpr(e.f, h);
    ExprGrows(e.f, h);
  }

  lemma TernaryCode(code: seq<Block>, e: S.Expr, g: Gen, g1: Gen, a: Typed, g2: Gen, z: Operand, f: Gen, g3: Gen, tv: Typed,
                    h: Gen, g4: Gen, fv: Typed)
    requires TernaryStages(e, g, g1, a, g2, z, f, g3, tv, h, g4, fv) && Ext(code, LowerTernary(e, g).0.blocks)
    ensures Ext(code, g1.blocks) && Ext(code, g2.blocks) && Ext(code, f.blocks) && Ext(code, g3.blocks)
    ensures Ext(code, Emit(g3, Br(|g2.blocks| + 2)).blocks) && Ext(code, g4.blocks)
    ensures Ext(code, Join(g4, |g2.blocks| + 2, tv.op, g3.cur, fv.op).0.blocks)
  {
    hide LowerExpr, LowerTernary, TestZero, Join, Fork3, Ext, Grows, Emit;
    TernaryShape(e, g, g1, a, g2, z, f, g3, tv, h, g4, fv);
    TernaryUntouched(g2, z, e);
    JoinDown(code, g4, |g2.blocks| + 2, tv.op, g3.cur, fv.op);
    ExtDown(code, h, g4);
    Descend(code, g3, Br(|g2.blocks| + 2));
    ExtDown(code, f, g3);
    ExtDown(code, g2, f);
    TestZeroGrows(g1, Ne, a);
    ExtDown(code, g1, g2);
  }

  /** The then branch, from its first block through the merge block. */
  lemma {:induction false} ThenRuns(code: seq<Block>, e: S.Expr, env: S.Env, ty: S.Ty, s: S.Store, g2: Gen, z: Operand, c3: Config)
    returns (n: nat, d: Config)
    requires Ok(g2) && e.Ternary? && Starts(e.t, env, ty, s, Fork3(g2, z), c3)
    requires var f := Fork3(g2, z);
      var (g3, tv) := LowerExpr(e.t, f);
      Ok(ElseStart(g2, g3)) &&
      var (g4, fv) := LowerExpr(e.f, ElseStart(g2, g3));
      && |g2.blocks| + 2 < |g4.blocks|
      && Ext(code, g3.blocks) && Ext(code, Emit(g3, Br(|g2.blocks| + 2)).blocks)
      && Ext(code, Join(g4, |g2.blocks| + 2, tv.op, g3.cur, fv.op).0.blocks)
    ensures d == Run(code, c3, n)
    ensures var f := Fork3(g2, z);
      var (g3, tv) := LowerExpr(e.t, f);
      var (g4, fv) := LowerExpr(e.f, ElseStart(g2, g3));
      var (g5, phi) := Join(g4, |g2.blocks| + 2, tv.op, g3.cur, fv.op);
      Outcome(S.Eval(e.t, s, f.checks), ty, s, f, c3, g5, phi, d)
    decreases e, 0
  {
    hide LowerExpr, Join, Fork3, Ext, SameRegs, MemOk, Run, Grows, S.Rep, S.Fits, Emit;
    var f := Fork3(g2, z);
    var (g3, tv) := LowerExpr(e.t, f);
    var (g4, fv) := LowerExpr(e.f, ElseStart(g2, g3));
    TernaryUntouched(g2, z, e);
    var o := S.Eval(e.t, s, f.checks);
    n, d := ExprRuns(code, e.t, env, ty, s, f, c3);
    if o.Val? {
      var c4 := d;
      StepEmitted(code, g3, Br(|g2.blocks| + 2), c4);
      var c5 := Run(code, c4, 1);
      SameRegsFork(c4, c5, g3.regs);
      GoesOn(code, c3, n, c4, f.regs, 1, c5, g3.regs);
      d := JoinFromFork(code, g4, |g2.blocks| + 2, tv.op, g3.cur, fv.op, c5, Encode(o.v));
      GoesOn(code, c3, n + 1, c5, f.regs, 1, d, g4.regs);
      n := n + 2;
    }
  }

  lemma {:induction false} ElseRuns(code: seq<Block>, e: S.Expr, env: S.Env, ty: S.Ty, s: S.Store, g2: Gen, z: Operand, c3: Config)
    returns (n: nat, d: Config)
    requires Ok(g2) && e.Ternary?
    requires var f := Fork3(g2, z);
      var (g3, tv) := LowerExpr(e.t, f);
      var h := ElseStart(g2, g3);
      Ok(h) && Starts(e.f, env, ty, s, h, c3) &&
      var (g4, fv) := LowerExpr(e.f, h);
      && |g2.blocks| + 2 < |g4.blocks|
      && Ext(code, g4.blocks) && Ext(code, Join(g4, |g2.blocks| + 2, tv.op, g3.cur, fv.op).0.blocks)
    ensures d == Run(code, c3, n)
    ensures var f := Fork3(g2, z);
      var (g3, tv) := LowerExpr(e.t, f);
      var (g4, fv) := LowerExpr(e.f, ElseStart(g2, g3));
      var (g5, phi) := Join(g4, |g2.blocks| + 2, tv.op, g3.cur, fv.op);
      Outcome(S.Eval(e.f, s, f.checks), ty, s, f, c3, g5, phi, d)
    decreases e, 0
  {
    hide LowerExpr, Join, Fork3, Ext, SameRegs, MemOk, Run, Grows, S.Rep, S.Fits, Emit;
    var f := Fork3(g2, z);
    var (g3, tv) := LowerExpr(e.t, f);
    var h := ElseStart(g2, g3);
    var (g4, fv) := LowerExpr(e.f, h);
    TernaryUntouched(g2, z, e);
    var o := S.Eval(e.f, s, f.checks);
    n, d := ExprRuns(code, e.f, env, ty, s, h, c3);
    if o.Val? {
      var c4 := d;
      d := JoinFromRhs(code, g4, |g2.blocks| + 2, tv.op, g3.cur, fv.op, c4, Encode(o.v));
      GoesOn(code, c3, n, c4, h.regs, 2, d, g4.regs);
      FewerRegs(c3, d, f.regs, h.regs);
      n := n + 2;
    }
  }

  lemma FewerRegs(c: Config, d: Config, m: nat, n: nat)
    requires SameRegs(c, d, n) && m <= n
    ensures SameRegs(c, d, m)
  {
  }

  lemma {:induction false} TernaryRuns(code: seq<Block>, e: S.Expr, env: S.Env, ty: S.Ty, s: S.Store, g: Gen, c: Config)
    returns (n: nat, d: Config)
    requires e.Ternary? && Starts(e, env, ty, s, g, c) && Ext(code, LowerTernary(e, g).0.blocks)
    ensures d == Run(code, c, n)
    ensures Outcome(S.Eval(e, s, g.checks), ty, s, g, c, LowerTernary(e, g).0, LowerTernary(e, g).1.op, d)
    decreases e, 1
  {
    hide LowerExpr, LowerTernary, Join, Fork3, TestZero, Emit, Ext, SameRegs, MemOk, Run, Grows, S.Rep, S.Fits;
    var (g1, a) := LowerExpr(e.c, g);
    var (g2, z) := TestZero(g1, Ne, a);
    var f := Fork3(g2, z);
    TernaryUntouched(g2, z, e);
    var (g3, tv) := LowerExpr(e.t, f);
    var h := ElseStart(g2, g3);
    var (g4, fv) := LowerExpr(e.f, h);
    TernaryShape(e, g, g1, a, g2, z, f, g3, tv, h, g4, fv);
    TernaryCode(code, e, g, g1, a, g2, z, f, g3, tv, h, g4, fv);
    var o1 := S.Eval(e.c, s, g.checks);
    n, d := ExprRuns(code, e.c, env, S.BoolT, s, g, c);
    if o1.Val? {
      var c1, m := d, 0;
      var c2 := TestZeroRuns(code, g1, Ne, a, c1, Flag(o1.v.b));
      GoesOn(code, c, n, c1, g.regs, 1, c2, g1.regs);
      var c3 := Fork3Runs(code, g2, z, c2, o1.v.b);
      SameRegsFork(c2, c3, g2.regs);
      GoesOn(code, c, n + 1, c2, g.regs, 1, c3, g2.regs);
      n := n + 2;
      if o1.v.b {
        m, d := ThenRuns(code, e, env, ty, s, g2, z, c3);
      } else {
        m, d := ElseRuns(code, e, env, ty, s, g2, z, c3);
      }
      Then(code, c, n, c3, m, d);
      if S.Eval(e, s, g.checks).Val? {
        GoesOn(code, c, n, c3, g.regs, m, d, f.regs);
      }
      n := n + m;
    }
  }

  // ---- indexing and membership ----

  lemma IndexCode(code: seq<Block>, e: S.Expr, g: Gen)
    requires Ok(g) && e.Index? && Ext(code, LowerIndex(e, g).0.blocks)
    ensures var (g1, iv) := LowerExpr(e.i, g);
      var (g2, idx) := BoundsCheck(g1, iv, e.len);
      var l := Load(g2.regs, Slot(e.arr, 64), idx);
      && Ext(code, g1.blocks) && Ext(code, g2.blocks) && Ext(code, Emit(g2, l).blocks)
      && LowerIndex(e, g).0 == Define(g2, l).0 && LowerIndex(e, g).1.op == Reg(g2.regs)
  {
    hide LowerExpr, BoundsCheck, Ext, Grows;
    var (g1, iv) := LowerExpr(e.i, g);
    var (g2, idx) := BoundsCheck(g1, iv, e.len);
    Descend(code, g2, Load(g2.regs, Slot(e.arr, 64), idx));
    BoundsCheckGrows(g1, iv, e.len);
    ExtDown(code, g1, g2);
  }

  lemma {:induction false} IndexRuns(code: seq<Block>, e: S.Expr, env: S.Env, ty: S.Ty, s: S.Store, g: Gen, c: Config)
    returns (n: nat, d: Config)
    requires e.Index? && Starts(e, env, ty, s, g, c) && Ext(code, LowerIndex(e, g).0.blocks)
    ensures d == Run(code, c, n)
    ensures Outcome(S.Eval(e, s, g.checks), ty, s, g, c, LowerIndex(e, g).0, LowerIndex(e, g).1.op, d)
    decreases e, 0
  {
    hide LowerExpr, LowerIndex, BoundsCheck, Define, Emit, Ext, SameRegs, MemOk, Run, Grows, S.Rep, S.Fits, ToWord;
    IndexCode(code, e, g);
    IntRep(e.i, env);
    var (g1, iv) := LowerExpr(e.i, g);
    var (g2, idx) := BoundsCheck(g1, iv, e.len);
    var o1 := S.Eval(e.i, s, g.checks);
    n, d := ExprRuns(code, e.i, env, S.IntT, s, g, c);
    ArrayFits(s, env, e.arr, e.len);
    if o1.Val? {
      var c1 := d;
      var m;
      m, d := BoundsCheckRuns(code, g1, iv, e.len, c1, o1.v.n);
      Then(code, c, n, c1, m, d);
      if !g.checks || 0 <= o1.v.n < e.len {
        var c2 := d;
        GoesOn(code, c, n, c1, g.regs, m, c2, g1.regs);
        d := ElementRuns(code, g2, s, e.arr, e.len, idx, o1.v.n, c2);
        Then(code, c, n + m, c2, 1, d);
        if 0 <= o1.v.n < e.len {
          GoesOn(code, c, n + m, c2, g.regs, 1, d, g2.regs);
        }
        n := n + m + 1;
      } else {
        n := n + m;
      }
    }
  }

  lemma ArrayFits(s: S.Store, env: S.Env, arr: nat, len: nat)
    requires S.Fits(s, env) && arr in env && env[arr] == S.Array(len)
    ensures arr in s && s[arr].A? && |s[arr].cells| == len && forall k | 0 <= k < len :: IsInt64(s[arr].cells[k])
  {
    assert S.ValueFits(s[arr], env[arr]);
  }

  lemma ElementRuns(code: seq<Block>, g: Gen, s: S.Store, arr: nat, len: nat, idx: Operand, n: int, c: Config) returns (d: Config)
    requires arr in s && s[arr].A? && |s[arr].cells| == len < HALF && IsInt64(n)
    requires At(c, g) && MemOk(s, c.mem) && Holds(c, idx, ToWord(n)) && Ext(code, Emit(g, Load(g.regs, Slot(arr, 64), idx)).blocks)
    ensures d == Run(code, c, 1)
    ensures if 0 <= n < len
      then At(d, Define(g, Load(g.regs, Slot(arr, 64), idx)).0) && Holds(d, Reg(g.regs), ToWord(s[arr].cells[n]))
           && SameRegs(c, d, g.regs) && d.mem == c.mem
      else d == Stuck
  {
    hide Ext, SameRegs;
    UnsignedCatchesBoth(n, len);
    if 0 <= n < len {
      ToIntToWord(n);
      d := DefineRuns(code, g, Load(g.regs, Slot(arr, 64), idx), c, ToWord(s[arr].cells[n]));
    } else {
      StepEmitted(code, g, Load(g.regs, Slot(arr, 64), idx), c);
      d := Run(code, c, 1);
    }
  }

  lemma {:induction false} MemberRuns(code: seq<Block>, e: S.Expr, env: S.Env, ty: S.Ty, s: S.Store, g: Gen, c: Config)
    returns (n: nat, d: Config)
    requires e.Member? && Starts(e, env, ty, s, g, c) && Ext(code, LowerMember(e, g).0.blocks)
    ensures d == Run(code, c, n)
    ensures Outcome(S.Eval(e, s, g.checks), ty, s, g, c, LowerMember(e, g).0, LowerMember(e, g).1.op, d)
    decreases e, 0
  {
    hide LowerExpr, Search, Ext, SameRegs, MemOk, Run, Grows, S.Rep, S.Fits, ToWord;
    var (g1, v) := LowerExpr(e.e, g);
    var (g2, r) := Search(g1, v.op, e.arr, e.len, e.negated);
    assert LowerMember(e, g) == (g2, Typed(r, 64));
    SearchGrows(g1, v.op, e.arr, e.len, e.negated);
    ExtDown(code, g1, g2);
    var o1 := S.Eval(e.e, s, g.checks);
    n, d := ExprRuns(code, e.e, env, S.IntT, s, g, c);
    ArrayFits(s, env, e.arr, e.len);
    if o1.Val? {
      var c1 := d;
      var cells := s[e.arr].cells;
      ArrayInMemory(s, c1.mem, e.arr);
      var m;
      m, d := SearchRuns(code, g1, v.op, e.arr, e.len, e.negated, c1, ToWord(o1.v.n), Cells(s[e.arr]));
      assert d.Running?;
      GoesOn(code, c, n, c1, g.regs, m, d, g1.regs);
      n := n + m;
      SameMembers(o1.v.n, cells);
      TempsAside(s, c1.mem, d.mem, g1.temps);
    }
  }

  lemma ArrayInMemory(s: S.Store, mem: Memory, arr: nat)
    requires MemOk(s, mem) && arr in s && s[arr].A?
    ensures Slot(arr, 64) in mem && mem[Slot(arr, 64)] == Cells(s[arr]) && |Cells(s[arr])| == |s[arr].cells|
  {
  }

  /** Encoding neither loses nor adds members. */
  lemma SameMembers(n: int, cells: seq<int>)
    requires IsInt64(n) && forall k | 0 <= k < |cells| :: IsInt64(cells[k])
    ensures ToWord(n) in Cells(S.A(cells)) <==> n in cells
  {
    var ws := Cells(S.A(cells));
    ToIntToWord(n);
    if n in cells {
      var k :| 0 <= k < |cells| && cells[k] == n;
      assert ws[k] == ToWord(n);
    }
    if ToWord(n) in ws {
      var k :| 0 <= k < |ws| && ws[k] == ToWord(n);
      ToIntToWord(cells[k]);
      assert cells[k] == n;
    }
  }

  /** Writing a temporary leaves the variables alone. */
  lemma TempsAside(s: S.Store, before: Memory, after: Memory, t: nat)
    requires MemOk(s, before) && exists j: nat :: after == before[Temp(t) := [j]]
    ensures MemOk(s, after)
  {
  }
}
