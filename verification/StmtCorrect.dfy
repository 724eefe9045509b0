/** Running the code emitted for a statement does what the statement does: it arrives at the block the source's flow of
    control calls for, with every variable holding its value, or it returns, traps or is undefined as the source is. */
module StmtCorrect {
  import opened Words
  import opened Cfg
  import opened Lower
  import opened Statements
  import opened Growth
  import opened Shape
  import opened ExprShape
  import opened StmtShape
  import opened Simulation
  import opened Arithmetic
  import opened ExprCorrect
  import S = Source

  // ---- where a run may end ----

  predicate AtBlock(c: Config, bb: BlockId) {
    c.Running? && c.bb == bb && c.pc == 0
  }

  /** The blocks that break, continue and fallthrough lead to. */
  datatype Places = Places(brk: Target, cont: Target, fall: Target)

  function PlacesOf(g: Gen, ctx: S.Ctx): Places
    requires HasTargets(g, ctx)
  {
    Places(if ctx.canBreak then To(Top(g).breakBb) else NoTarget,
           if ctx.canContinue then Top(g).continueBb else NoTarget,
           if ctx.canFall then g.fall else NoTarget)
  }

  /** d holds the variables of s; registers below k are as in c. */
  ghost predicate Kept(s: S.Store, env: S.Env, c: Config, k: nat, d: Config) {
    d.Running? && MemOk(s, d.mem) && S.Fits(s, env) && SameRegs(c, d, k)
  }

  ghost predicate Jumped(to: Target, s: S.Store, env: S.Env, c: Config, k: nat, d: Config) {
    to.To? && AtBlock(d, to.bb) && Kept(s, env, c, k, d)
  }

  /** The machine, started in c, is where the flow f says, the builder being at h after a normal end. It is still running
      when the source ran out of fuel. */
  ghost predicate Reached(f: S.Flow, env: S.Env, after: S.Env, p: Places, c: Config, k: nat, h: Gen, d: Config) {
    match f
    case Normal(s) => At(d, h) && Open(h.blocks[h.cur]) && Kept(s, after, c, k, d)
    case Broke(s) => Jumped(p.brk, s, env, c, k, d)
    case Continued(s) => Jumped(p.cont, s, env, c, k, d)
    case Fell(s) => Jumped(p.fall, s, env, c, k, d)
    case Returned(v, s) => d.Returned? && d.value == Encode(v) && MemOk(s, d.mem)
    case ReturnedVoid(s) => d.ReturnedVoid? && MemOk(s, d.mem)
    case Trap => d == Trapped
    case Undef => d == Stuck
    case OutOfFuel => d.Running?
  }

  /** The flow left the region without a normal end, so neither the builder's position nor the later variables matter. */
  lemma Abrupt(f: S.Flow, env: S.Env, after: S.Env, p: Places, c: Config, k: nat, h: Gen, d: Config, after': S.Env, h': Gen)
    requires Reached(f, env, after, p, c, k, h, d) && !f.Normal?
    ensures Reached(f, env, after', p, c, k, h', d)
  {
  }

  /** Prefix a run by another one. */
  lemma After(code: seq<Block>, b: Config, m: nat, c: Config, j: nat, f: S.Flow, env: S.Env, after: S.Env, p: Places, n: nat, k: nat, h: Gen, d: Config)
    requires Goes(code, b, m, c, j) && j <= k
    requires d == Run(code, c, n) && Reached(f, env, after, p, c, k, h, d)
    ensures d == Run(code, b, m + n) && Reached(f, env, after, p, b, j, h, d)
  {
    hide MemOk, At;
    Then(code, b, m, c, n, d);
    if f.Normal? || f.Broke? || f.Continued? || f.Fell? {
      SameRegsTrans(b, c, d, j, k);
    }
  }

  ghost predicate SubEnv(env: S.Env, after: S.Env) {
    forall x | x in env :: x in after && after[x] == env[x]
  }

  lemma FitsSub(s: S.Store, env: S.Env, after: S.Env)
    requires S.Fits(s, after) && SubEnv(env, after)
    ensures S.Fits(s, env)
  {
  }

  /** Forget the variables of an inner scope. */
  lemma Narrow(f: S.Flow, env: S.Env, after: S.Env, env': S.Env, after': S.Env, p: Places, p': Places, c: Config, k: nat, h: Gen, d: Config)
    requires Reached(f, env, after, p, c, k, h, d) && SubEnv(env', env) && SubEnv(after', after)
    requires (p.brk.To? ==> p'.brk == p.brk) && (p.cont.To? ==> p'.cont == p.cont) && (p.fall.To? ==> p'.fall == p.fall)
    ensures Reached(f, env', after', p', c, k, h, d)
  {
    hide MemOk, At, SameRegs, S.Fits, SubEnv;
    match f
    case Normal(s) => FitsSub(s, after', after);
    case Broke(s) => FitsSub(s, env', env);
    case Continued(s) => FitsSub(s, env', env);
    case Fell(s) => FitsSub(s, env', env);
    case _ =>
  }

  // ---- steps ----

  /** Instruction j of a straight-line piece emitted at the end of the current block. */
  lemma PieceStep(code: seq<Block>, g: Gen, ins: seq<Instr>, n: nat, c0: Config, c: Config, j: nat)
    requires At(c0, g) && Ext(code, EmitAll(g, ins, n).blocks) && j < |ins|
    requires c.Running? && c.bb == c0.bb && c.pc == c0.pc + j
    ensures Run(code, c, 1) == StepInstr(ins[j], c)
  {
    var h := EmitAll(g, ins, n);
    assert h.blocks[g.cur] == g.blocks[g.cur] + ins;
    assert h.blocks[g.cur] <= code[g.cur];
    assert code[c.bb][c.pc] == h.blocks[g.cur][c.pc] == ins[j];
    assert Run(code, c, 1) == Run(code, Step(code, c), 0);
  }

  lemma BrRuns(code: seq<Block>, g: Gen, bb: BlockId, c: Config) returns (d: Config)
    requires At(c, g) && Ext(code, Emit(g, Br(bb)).blocks)
    ensures d == Run(code, c, 1) && d == c.(bb := bb, pc := 0, prev := c.bb)
  {
    StepEmitted(code, g, Br(bb), c);
    d := Run(code, c, 1);
  }

  lemma DownAppends(code: seq<Block>, f: Gen, g: Gen)
    requires Appends(f, g) && Ext(code, g.blocks)
    ensures Ext(code, f.blocks)
  {
    forall b | 0 <= b < |f.blocks| ensures f.blocks[b] <= code[b] {
      assert f.blocks[b] <= g.blocks[b] <= code[b];
    }
  }

  lemma DownAll(code: seq<Block>, g: Gen, ins: seq<Instr>, n: nat)
    requires Ok(g) && Ext(code, EmitAll(g, ins, n).blocks)
    ensures Ext(code, g.blocks)
  {
    var h := EmitAll(g, ins, n);
    assert h.blocks[g.cur] == g.blocks[g.cur] + ins;
    DownAppends(code, g, h) by { assert g.blocks[g.cur] <= h.blocks[g.cur]; }
  }

  lemma DownLeave(code: seq<Block>, g: Gen, bb: BlockId)
    requires Ok(g) && Ext(code, Leave(g, bb).blocks)
    ensures Ext(code, g.blocks)
  {
    DownAppends(code, g, Leave(g, bb));
  }

  /** Storing a value in a scalar variable's slot. */
  lemma StoreRuns(code: seq<Block>, g: Gen, s: S.Store, x: nat, w: Operand, v: S.Value, width: nat, c: Config) returns (d: Config)
    requires At(c, g) && Ext(code, Emit(g, Store(w, SlotOf(x, v), Imm(0), width)).blocks) && Holds(c, w, Encode(v)) && !v.A?
    requires x in s && !s[x].A? && s[x].B? == v.B? && MemOk(s, c.mem) && width <= CellWidth(SlotOf(x, v))
    ensures d == Run(code, c, 1) && At(d, Emit(g, Store(w, SlotOf(x, v), Imm(0), width))) && SameRegs(c, d, g.regs)
    ensures MemOk(s[x := v], d.mem)
  {
    StepEmitted(code, g, Store(w, SlotOf(x, v), Imm(0), width), c);
    d := Run(code, c, 1);
    assert d.mem[SlotOf(x, v)] == Cells(v);
  }

  /** A store wider than the slot. */
  lemma WideStoreStuck(code: seq<Block>, g: Gen, w: Operand, slot: Region, width: nat, c: Config)
    requires At(c, g) && Ext(code, Emit(g, Store(w, slot, Imm(0), width)).blocks) && width > CellWidth(slot)
    ensures Run(code, c, 1) == Stuck
  {
    StepEmitted(code, g, Store(w, slot, Imm(0), width), c);
  }

  // ---- straight-line statements ----

  /** An expression reads only the variables it is typed in. */
  lemma {:induction false} EvalAgrees(e: S.Expr, env: S.Env, ty: S.Ty, s: S.Store, t: S.Store, checks: bool)
    requires S.HasType(e, env, ty)
    requires forall x | x in env :: x in s && x in t && s[x] == t[x]
    ensures S.Eval(e, s, checks) == S.Eval(e, t, checks)
    decreases e, 1
  {
    hide S.ArithInt, S.RelInt, S.Rep, S.IsZero, Wrap, S.MixedEquality;
    match e
    case IntLit(_) =>
    case BoolLit(_) =>
    case Var(_, _) =>
    case Negate(e1) => EvalAgrees(e1, env, S.IntT, s, t, checks);
    case Complement(e1) => EvalAgrees(e1, env, S.IntT, s, t, checks);
    case Not(e1) => EvalAgrees(e1, env, S.BoolT, s, t, checks);
    case Arith(_, _, _) => OperandsAgree(e, env, ty, s, t, checks);
    case Rel(_, _, _) => OperandsAgree(e, env, ty, s, t, checks);
    case Logical(_, _, _) => BranchesAgree(e, env, ty, s, t, checks);
    case Ternary(_, _, _) => BranchesAgree(e, env, ty, s, t, checks);
    case OrElse(_, _) => BranchesAgree(e, env, ty, s, t, checks);
    case Index(_, _, i) => EvalAgrees(i, env, S.IntT, s, t, checks);
    case Member(e1, _, _, _) => EvalAgrees(e1, env, S.IntT, s, t, checks);
  }

  lemma {:induction false} OperandsAgree(e: S.Expr, env: S.Env, ty: S.Ty, s: S.Store, t: S.Store, checks: bool)
    requires (e.Arith? || e.Rel?) && S.HasType(e, env, ty)
    requires forall x | x in env :: x in s && x in t && s[x] == t[x]
    ensures S.Eval(e, s, checks) == S.Eval(e, t, checks)
    decreases e, 0
  {
    hide S.ArithInt, S.RelInt, S.Rep, S.HasType;
    OperandWidths(e, env, ty);
    var ot := OperandTy(e, env);
    EvalAgrees(e.l, env, ot, s, t, checks);
    EvalAgrees(e.r, env, ot, s, t, checks);
  }

  lemma {:induction false} BranchesAgree(e: S.Expr, env: S.Env, ty: S.Ty, s: S.Store, t: S.Store, checks: bool)
    requires (e.Logical? || e.Ternary? || e.OrElse?) && S.HasType(e, env, ty)
    requires forall x | x in env :: x in s && x in t && s[x] == t[x]
    ensures S.Eval(e, s, checks) == S.Eval(e, t, checks)
    decreases e, 0
  {
    hide S.ArithInt, S.RelInt, S.Rep, S.IsZero;
    if e.Ternary? {
      EvalAgrees(e.c, env, S.BoolT, s, t, checks);
      EvalAgrees(e.t, env, ty, s, t, checks);
      EvalAgrees(e.f, env, ty, s, t, checks);
    } else {
      EvalAgrees(e.l, env, ty, s, t, checks);
      EvalAgrees(e.r, env, ty, s, t, checks);
    }
  }

  ghost predicate Begins(st: S.Stmt, env: S.Env, ctx: S.Ctx, s: S.Store, g: Gen, c: Config) {
    S.Legal(st, env, ctx) && Ready(g) && TargetsOk(g, ctx) && S.Fits(s, env) && At(c, g) && MemOk(s, c.mem)
  }

  lemma ExprStmtRuns(code: seq<Block>, st: S.Stmt, env: S.Env, ctx: S.Ctx, s: S.Store, g: Gen, c: Config, fuel: nat, p: Places) returns (n: nat, d: Config)
    requires st.ExprStmt? && Begins(st, env, ctx, s, g, c) && Ext(code, LowerStmt(st, g).blocks)
    ensures d == Run(code, c, n) && Reached(S.Exec(st, s, g.checks, fuel), env, env, p, c, g.regs, LowerStmt(st, g), d)
  {
    hide MemOk, SameRegs, Ext, TargetsOk, LowerExpr, S.HasType, S.Fits, Ready, Run, TidyOpen;
    ReadyOk(g);
    var ty := if S.HasType(st.e, env, S.IntT) then S.IntT else S.BoolT;
    n, d := ExprRuns(code, st.e, env, ty, s, g, c);
    ExprTidy(st.e, g);
    TidyIs(g, LowerExpr(st.e, g).0, {}, {});
  }

  function ZeroSlot(g: Gen, x: nat, ty: S.Ty): (h: Gen)
    requires Ok(g)
  {
    EmitAll(g, [Alloca(Slot(x, S.WidthOf(ty)), 1), Store(Imm(0), Slot(x, S.WidthOf(ty)), Imm(0), S.WidthOf(ty))], 0)
  }

  function ZeroOf(ty: S.Ty): S.Value { if ty == S.IntT then S.I(0) else S.B(false) }

  /** A fresh slot holds zero, whatever an earlier variable there held. */
  lemma ZeroSlotRuns(code: seq<Block>, g: Gen, s: S.Store, x: nat, ty: S.Ty, c: Config) returns (d: Config)
    requires At(c, g) && MemOk(s, c.mem) && Ext(code, ZeroSlot(g, x, ty).blocks)
    ensures d == Run(code, c, 2) && At(d, ZeroSlot(g, x, ty)) && d.regs == c.regs && MemOk(s[x := ZeroOf(ty)], d.mem)
  {
    var slot := Slot(x, S.WidthOf(ty));
    var ins := [Alloca(slot, 1), Store(Imm(0), slot, Imm(0), S.WidthOf(ty))];
    PieceStep(code, g, ins, 0, c, c, 0);
    var c1 := Run(code, c, 1);
    PieceStep(code, g, ins, 0, c, c1, 1);
    d := Run(code, c1, 1);
    Then(code, c, 1, c1, 1, d);
    assert ZeroSlot(g, x, ty).blocks[g.cur] == g.blocks[g.cur] + ins;
    assert slot == SlotOf(x, ZeroOf(ty)) && d.mem[slot] == [0] == Cells(ZeroOf(ty));
  }

  lemma FitsUpdate(s: S.Store, env: S.Env, x: nat, t: S.SlotTy, v: S.Value)
    requires S.Fits(s, env) && S.ValueFits(v, t) && (x in env ==> env[x] == t)
    ensures S.Fits(s[x := v], env) && S.Fits(s[x := v], env[x := t])
  {
  }

  lemma FitsAside(s: S.Store, env: S.Env, x: nat, v: S.Value)
    requires S.Fits(s, env) && x !in env
    ensures S.Fits(s[x := v], env)
    ensures forall y | y in env :: y in s && y in s[x := v] && s[y] == s[x := v][y]
  {
  }

  /** A value is held at least as wide as its type's slot. */
  lemma RepWide(e: S.Expr, env: S.Env, ty: S.Ty)
    requires S.HasType(e, env, ty)
    ensures 0 < S.WidthOf(ty) <= S.Rep(e) && (ty == S.IntT ==> S.Rep(e) == 64)
  {
    RepPositive(e);
    if ty == S.IntT { IntRep(e, env); }
  }

  /** The stages of a declaration are in the code. */
  lemma DeclareCode(code: seq<Block>, st: S.Stmt, g: Gen)
    requires Ready(g) && st.Declare? && Ext(code, LowerStmt(st, g).blocks)
    ensures Ok(g)
    ensures var g1 := ZeroSlot(g, st.x, st.ty);
      var (g2, v) := LowerExpr(st.e, g1);
      var (g3, w) := Coerce(g2, v, S.WidthOf(st.ty));
      && Ext(code, g1.blocks) && Ext(code, g2.blocks) && Ext(code, g3.blocks)
      && LowerStmt(st, g) == Emit(g3, Store(w, Slot(st.x, S.WidthOf(st.ty)), Imm(0), S.WidthOf(st.ty)))
  {
    hide LowerExpr, Coerce, Ext, Grows, EmitAll, Emit, Ready;
    ReadyOk(g);
    var g1 := ZeroSlot(g, st.x, st.ty);
    var (g2, v) := LowerExpr(st.e, g1);
    var (g3, w) := Coerce(g2, v, S.WidthOf(st.ty));
    Descend(code, g3, Store(w, Slot(st.x, S.WidthOf(st.ty)), Imm(0), S.WidthOf(st.ty)));
    ResizeGrows(g2, v, S.WidthOf(st.ty));
    ExtDown(code, g2, g3);
    ExprGrows(st.e, g1);
    ExtDown(code, g1, g2);
  }

  /** The value is coerced to the variable's width and stored. */
  lemma CoerceStoreRuns(code: seq<Block>, g: Gen, v: Typed, x: nat, ty: S.Ty, z: S.Store, y: S.Value, c: Config) returns (n: nat, d: Config)
    requires At(c, g) && Known(g, v.op) && Holds(c, v.op, Encode(y)) && S.ValueFits(y, S.Scalar(ty)) && MemOk(z, c.mem)
    requires S.WidthOf(ty) <= v.width && (ty == S.IntT ==> v.width == 64) && x in z && S.ValueFits(z[x], S.Scalar(ty))
    requires var (h, w) := Coerce(g, v, S.WidthOf(ty));
      Ext(code, h.blocks) && Ext(code, Emit(h, Store(w, Slot(x, S.WidthOf(ty)), Imm(0), S.WidthOf(ty))).blocks)
    ensures d == Run(code, c, n)
    ensures var (h, w) := Coerce(g, v, S.WidthOf(ty)); At(d, Emit(h, Store(w, Slot(x, S.WidthOf(ty)), Imm(0), S.WidthOf(ty))))
    ensures SameRegs(c, d, g.regs) && MemOk(z[x := y], d.mem)
  {
    hide MemOk, SameRegs, Ext, Coerce, Emit, Run;
    var width := S.WidthOf(ty);
    var (h, w) := Coerce(g, v, width);
    SlotIs(x, y, ty);
    SlotIs(x, z[x], ty);
    var c1;
    n, c1 := CoerceRuns(code, g, v, width, y, ty, c);
    d := StoreRuns(code, h, z, x, w, y, width, c1);
    Then(code, c, n, c1, 1, d);
    SameRegsTrans(c, c1, d, g.regs, h.regs);
    n := n + 1;
  }

  lemma DeclareIs(st: S.Stmt, s: S.Store, checks: bool, fuel: nat)
    requires st.Declare?
    ensures var o := S.Eval(st.e, s, checks); S.Exec(st, s, checks, fuel) == if o.Val? then S.Normal(s[st.x := o.v]) else S.Failure(o)
  {
  }

  lemma DeclareRuns(code: seq<Block>, st: S.Stmt, env: S.Env, ctx: S.Ctx, s: S.Store, g: Gen, c: Config, fuel: nat, p: Places) returns (n: nat, d: Config)
    requires st.Declare? && Begins(st, env, ctx, s, g, c) && Ext(code, LowerStmt(st, g).blocks)
    ensures d == Run(code, c, n)
    ensures Reached(S.Exec(st, s, g.checks, fuel), env, S.EnvAfter(st, env), p, c, g.regs, LowerStmt(st, g), d)
  {
    hide MemOk, SameRegs, Ext, TargetsOk, LowerExpr, Coerce, EmitAll, Emit, S.Fits, Run, Ready, TidyOpen, Tidy, S.HasType, S.Rep, Appends, S.Exec, LowerStmt, S.Eval;
    ReadyOk(g);
    DeclareIs(st, s, g.checks, fuel);
    DeclareTidy(st, g);
    TidyIs(g, LowerStmt(st, g), {}, {});
    var x, width, z := st.x, S.WidthOf(st.ty), s[st.x := ZeroOf(st.ty)];
    var g1 := ZeroSlot(g, x, st.ty);
    var (g2, v) := LowerExpr(st.e, g1);
    var (g3, w) := Coerce(g2, v, width);
    DeclareCode(code, st, g);
    var c1 := ZeroSlotRuns(code, g, s, x, st.ty, c);
    FitsAside(s, env, x, ZeroOf(st.ty));
    EvalAgrees(st.e, env, st.ty, s, z, g.checks);
    n, d := ExprRuns(code, st.e, env, st.ty, z, g1, c1);
    var o := S.Eval(st.e, s, g.checks);
    SameRegsFork(c, c1, g.regs);
    Then(code, c, 2, c1, n, d);
    if o.Val? {
      var c2 := d;
      GoesOn(code, c, 2, c1, g.regs, n, c2, g1.regs);
      RepWide(st.e, env, st.ty);
      var m;
      m, d := CoerceStoreRuns(code, g2, v, x, st.ty, z, o.v, c2);
      GoesOn(code, c, 2 + n, c2, g.regs, m, d, g2.regs);
      assert z[x := o.v] == s[x := o.v];
      FitsUpdate(s, env, x, S.Scalar(st.ty), o.v);
      n := n + m;
    }
    n := n + 2;
  }

  // ---- assignment ----

  lemma UpdateRuns(code: seq<Block>, g: Gen, how: S.AssignOp, region: Region, index: Operand, v: Typed, c: Config, i: nat, was: S.Value, x: S.Value, ty: S.Ty)
    returns (n: nat, d: Config)
    requires At(c, g) && Known(g, v.op) && Holds(c, v.op, Encode(x)) && Holds(c, index, i)
    requires region in c.mem && i < |c.mem[region]| && c.mem[region][i] == Encode(was)
    requires S.ValueFits(was, S.Scalar(ty)) && S.ValueFits(x, S.Scalar(ty)) && (how.Compound? ==> ty == S.IntT)
    requires Ext(code, Update(g, how, region, index, v).0.blocks)
    ensures d == Run(code, c, n)
    ensures match S.Updated(how, was, x)
      case Val(u) =>
        && S.ValueFits(u, S.Scalar(ty)) && At(d, Update(g, how, region, index, v).0)
        && Holds(d, Update(g, how, region, index, v).1, Encode(u)) && SameRegs(c, d, g.regs) && d.mem == c.mem
      case Undefined => d == Stuck
      case OutOfBounds => false
  {
    if how.Plain? {
      n, d := 0, c;
    } else {
      hide BinWord, S.ArithInt, MachineOp, Ext, Run;
      var r := g.regs;
      var ins := [Load(r, region, index), Binary(r + 1, MachineOp(how.op), Reg(r), v.op)];
      var h := EmitAll(g, ins, 2);
      assert h.blocks[g.cur] == g.blocks[g.cur] + ins;
      ArithAgrees(how.op, was.n, x.n);
      PieceStep(code, g, ins, 2, c, c, 0);
      var c1 := Run(code, c, 1);
      PieceStep(code, g, ins, 2, c, c1, 1);
      n, d := 2, Run(code, c1, 1);
      Then(code, c, 1, c1, 1, d);
    }
  }

  /** A compound update of a cell that does not exist is undefined. */
  lemma UpdateStuck(code: seq<Block>, g: Gen, how: S.AssignOp, region: Region, index: Operand, v: Typed, c: Config, i: nat)
    requires At(c, g) && Known(g, v.op) && Holds(c, index, i) && region in c.mem && i >= |c.mem[region]| && how.Compound?
    requires Ext(code, Update(g, how, region, index, v).0.blocks)
    ensures Run(code, c, 1) == Stuck
  {
    var r := g.regs;
    PieceStep(code, g, [Load(r, region, index), Binary(r + 1, MachineOp(how.op), Reg(r), v.op)], 2, c, c, 0);
  }

  lemma DownUpdate(code: seq<Block>, g: Gen, how: S.AssignOp, region: Region, index: Operand, v: Typed)
    requires Ok(g) && Known(g, v.op) && Ext(code, Update(g, how, region, index, v).0.blocks)
    ensures Ext(code, g.blocks)
  {
    if how.Compound? {
      var r := g.regs;
      DownAll(code, g, [Load(r, region, index), Binary(r + 1, MachineOp(how.op), Reg(r), v.op)], 2);
    }
  }

  lemma AssignCode(code: seq<Block>, st: S.Stmt, g: Gen)
    requires Ok(g) && st.Assign? && Ext(code, LowerStmt(st, g).blocks)
    ensures var slot := Slot(st.x, S.WidthOf(st.ty));
      var (g1, v) := LowerExpr(st.e, g);
      var (g2, w) := Update(g1, st.how, slot, Imm(0), v);
      && Ext(code, g1.blocks) && Ext(code, g2.blocks) && LowerStmt(st, g) == Emit(g2, Store(w, slot, Imm(0), v.width))
  {
    hide LowerExpr, Update, Ext, Grows, Emit;
    var slot := Slot(st.x, S.WidthOf(st.ty));
    var (g1, v) := LowerExpr(st.e, g);
    var (g2, w) := Update(g1, st.how, slot, Imm(0), v);
    Descend(code, g2, Store(w, slot, Imm(0), v.width));
    DownUpdate(code, g1, st.how, slot, Imm(0), v);
  }

  lemma FitsAt(s: S.Store, env: S.Env, x: nat)
    requires S.Fits(s, env) && x in env
    ensures x in s && S.ValueFits(s[x], env[x])
  {
  }

  lemma SlotIs(x: nat, v: S.Value, ty: S.Ty)
    requires S.ValueFits(v, S.Scalar(ty))
    ensures !v.A? && SlotOf(x, v) == Slot(x, S.WidthOf(ty)) && (v.B? <==> ty == S.BoolT)
  {
  }

  lemma SlotHolds(s: S.Store, x: nat, ty: S.Ty, mem: Memory)
    requires MemOk(s, mem) && x in s && S.ValueFits(s[x], S.Scalar(ty))
    ensures var slot := Slot(x, S.WidthOf(ty)); slot in mem && mem[slot] == [Encode(s[x])]
  {
    SlotIs(x, s[x], ty);
  }

  /** A typed assignment to a scalar variable, of an expression held at any width. */
  ghost predicate AssignBegins(st: S.Stmt, env: S.Env, s: S.Store, g: Gen, c: Config) {
    && st.Assign? && st.x in env && env[st.x] == S.Scalar(st.ty) && S.HasType(st.e, env, st.ty) && (st.how.Compound? ==> st.ty == S.IntT)
    && Ready(g) && S.Fits(s, env) && At(c, g) && MemOk(s, c.mem)
  }

  /** When the value is computed, it is stored as in the source exactly when it is held no wider than the variable's slot;
      the code stores it at its own width. */
  lemma AssignStores(code: seq<Block>, st: S.Stmt, env: S.Env, s: S.Store, g: Gen, c: Config, fuel: nat, p: Places) returns (n: nat, d: Config)
    requires AssignBegins(st, env, s, g, c) && Ext(code, LowerStmt(st, g).blocks)
    ensures d == Run(code, c, n)
    ensures var f := S.Exec(st, s, g.checks, fuel);
      && (Reached(f, env, env, p, c, g.regs, LowerStmt(st, g), d) <==> !f.Normal? || S.Rep(st.e) <= S.WidthOf(st.ty))
      && (f.Normal? && S.Rep(st.e) > S.WidthOf(st.ty) ==> d == Stuck)
  {
    hide SameRegs, Ext, LowerExpr, Update, Emit, Run, Ready, TidyOpen, Tidy, Appends, S.Updated, S.HasType, S.Rep, MemOk, S.Fits;
    ReadyOk(g);
    AssignTidy(st, g);
    TidyIs(g, LowerStmt(st, g), {}, {});
    var x, slot := st.x, Slot(st.x, S.WidthOf(st.ty));
    var (g1, v) := LowerExpr(st.e, g);
    var (g2, w) := Update(g1, st.how, slot, Imm(0), v);
    AssignCode(code, st, g);
    n, d := ExprRuns(code, st.e, env, st.ty, s, g, c);
    var o := S.Eval(st.e, s, g.checks);
    FitsAt(s, env, x);
    if o.Val? {
      var c1 := d;
      var m;
      SlotHolds(s, x, st.ty, c1.mem);
      m, d := UpdateRuns(code, g1, st.how, slot, Imm(0), v, c1, 0, s[x], o.v, st.ty);
      var u := S.Updated(st.how, s[x], o.v);
      Then(code, c, n, c1, m, d);
      if u.Val? {
        var c2 := d;
        GoesOn(code, c, n, c1, g.regs, m, c2, g1.regs);
        SlotIs(x, u.v, st.ty);
        SlotIs(x, s[x], st.ty);
        if v.width <= S.WidthOf(st.ty) {
          d := StoreRuns(code, g2, s, x, w, u.v, v.width, c2);
          GoesOn(code, c, n + m, c2, g.regs, 1, d, g2.regs);
          FitsUpdate(s, env, x, S.Scalar(st.ty), u.v);
        } else {
          WideStoreStuck(code, g2, w, slot, v.width, c2);
          d := Stuck;
          Then(code, c, n + m, c2, 1, d);
        }
        n := n + 1;
      }
      n := n + m;
    }
  }

  lemma AssignRuns(code: seq<Block>, st: S.Stmt, env: S.Env, ctx: S.Ctx, s: S.Store, g: Gen, c: Config, fuel: nat, p: Places) returns (n: nat, d: Config)
    requires st.Assign? && Begins(st, env, ctx, s, g, c) && Ext(code, LowerStmt(st, g).blocks)
    ensures d == Run(code, c, n) && Reached(S.Exec(st, s, g.checks, fuel), env, env, p, c, g.regs, LowerStmt(st, g), d)
  {
    hide LowerStmt, Reached, Ready, S.Fits, MemOk, S.HasType, S.Rep, Ext, Run, TargetsOk, S.Exec;
    n, d := AssignStores(code, st, env, s, g, c, fuel, p);
  }

  lemma AssignElemShape(st: S.Stmt, g: Gen)
    requires Ok(g) && st.AssignElem?
    ensures var (g1, v) := LowerExpr(st.e, g);
      var (g2, iv) := LowerExpr(st.i, g1);
      var (g3, idx) := BoundsCheck(g2, iv, st.len);
      var (g4, w) := Update(g3, st.how, Slot(st.arr, 64), idx, v);
      LowerAssignElem(st, g) == Emit(g4, Store(w, Slot(st.arr, 64), idx, v.width))
  {
    hide LowerExpr, Update, Emit, BoundsCheck;
  }

  lemma AssignElemCode(code: seq<Block>, st: S.Stmt, g: Gen)
    requires Ok(g) && st.AssignElem? && Ext(code, LowerAssignElem(st, g).blocks)
    ensures var (g1, v) := LowerExpr(st.e, g);
      var (g2, iv) := LowerExpr(st.i, g1);
      var (g3, idx) := BoundsCheck(g2, iv, st.len);
      var (g4, w) := Update(g3, st.how, Slot(st.arr, 64), idx, v);
      && Ext(code, g1.blocks) && Ext(code, g2.blocks) && Ext(code, g3.blocks) && Ext(code, g4.blocks)
      && LowerAssignElem(st, g) == Emit(g4, Store(w, Slot(st.arr, 64), idx, v.width))
  {
    hide LowerExpr, Update, Ext, Grows, Emit, BoundsCheck, LowerAssignElem;
    AssignElemShape(st, g);
    var (g1, v) := LowerExpr(st.e, g);
    var (g2, iv) := LowerExpr(st.i, g1);
    var (g3, idx) := BoundsCheck(g2, iv, st.len);
    var (g4, w) := Update(g3, st.how, Slot(st.arr, 64), idx, v);
    Descend(code, g4, Store(w, Slot(st.arr, 64), idx, v.width));
    DownUpdate(code, g3, st.how, Slot(st.arr, 64), idx, v);
    BoundsCheckGrows(g2, iv, st.len);
    ExtDown(code, g2, g3);
    ExprGrows(st.i, g1);
    ExtDown(code, g1, g2);
  }

  lemma StoreElemRuns(code: seq<Block>, g: Gen, s: S.Store, arr: nat, w: Operand, idx: Operand, n: nat, u: int, c: Config) returns (d: Config)
    requires At(c, g) && Ext(code, Emit(g, Store(w, Slot(arr, 64), idx, 64)).blocks) && Holds(c, w, ToWord(u)) && Holds(c, idx, n)
    requires arr in s && s[arr].A? && n < |s[arr].cells| && MemOk(s, c.mem)
    ensures d == Run(code, c, 1) && At(d, Emit(g, Store(w, Slot(arr, 64), idx, 64))) && SameRegs(c, d, g.regs)
    ensures MemOk(s[arr := S.A(s[arr].cells[n := u])], d.mem)
  {
    StepEmitted(code, g, Store(w, Slot(arr, 64), idx, 64), c);
    d := Run(code, c, 1);
    assert d.mem[Slot(arr, 64)] == Cells(S.A(s[arr].cells[n := u]));
  }

  /** The store of an element, after the value and the checked index: undefined if an unchecked index is bad. */
  lemma ElemRuns(code: seq<Block>, st: S.Stmt, env: S.Env, s: S.Store, g: Gen, v: Typed, x: S.Value, idx: Operand, i: int, c: Config)
    returns (n: nat, d: Config)
    requires st.AssignElem? && Ok(g) && Known(g, v.op) && Known(g, idx) && At(c, g) && MemOk(s, c.mem) && S.Fits(s, env)
    requires st.arr in env && env[st.arr] == S.Array(st.len) && st.len < HALF && IsInt64(i)
    requires Holds(c, v.op, Encode(x)) && S.ValueFits(x, S.Scalar(S.IntT)) && Holds(c, idx, ToWord(i)) && v.width == 64
    requires var (h, w) := Update(g, st.how, Slot(st.arr, 64), idx, v);
      Ext(code, Emit(h, Store(w, Slot(st.arr, 64), idx, 64)).blocks)
    ensures d == Run(code, c, n) && st.arr in s && s[st.arr].A? && |s[st.arr].cells| == st.len
    ensures var (h, w) := Update(g, st.how, Slot(st.arr, 64), idx, v);
      if !(0 <= i < st.len) then d == Stuck else
      match S.Updated(st.how, S.I(s[st.arr].cells[i]), x)
      case Val(u) =>
        && u.I? && IsInt64(u.n) && At(d, Emit(h, Store(w, Slot(st.arr, 64), idx, 64))) && SameRegs(c, d, g.regs)
        && MemOk(s[st.arr := S.A(s[st.arr].cells[i := u.n])], d.mem)
      case Undefined => d == Stuck
      case OutOfBounds => false
  {
    hide SameRegs, Ext, Update, Emit, Run, S.Updated, Grows;
    var arr := st.arr;
    ArrayFits(s, env, arr, st.len);
    UnsignedCatchesBoth(i, st.len);
    ArrayInMemory(s, c.mem, arr);
    var (h, w) := Update(g, st.how, Slot(arr, 64), idx, v);
    Descend(code, h, Store(w, Slot(arr, 64), idx, 64));
    if 0 <= i < st.len {
      ToIntToWord(i);
      var was := S.I(s[arr].cells[i]);
      n, d := UpdateRuns(code, g, st.how, Slot(arr, 64), idx, v, c, i, was, x, S.IntT);
      var u := S.Updated(st.how, was, x);
      if u.Val? {
        var c1 := d;
        HoldsLater(c, c1, g, idx, i);
        d := StoreElemRuns(code, h, s, arr, w, idx, i, u.v.n, c1);
        Then(code, c, n, c1, 1, d);
        SameRegsTrans(c, c1, d, g.regs, h.regs);
        n := n + 1;
      }
    } else {
      n := 1;
      if st.how.Compound? {
        UpdateStuck(code, g, st.how, Slot(arr, 64), idx, v, c, ToWord(i));
      } else {
        PlainUpdate(g, st.how, Slot(arr, 64), idx, v);
        StepEmitted(code, g, Store(v.op, Slot(arr, 64), idx, 64), c);
      }
      d := Run(code, c, 1);
    }
  }

  lemma PlainUpdate(g: Gen, how: S.AssignOp, region: Region, index: Operand, v: Typed)
    requires Ok(g) && Known(g, v.op) && how.Plain?
    ensures Update(g, how, region, index, v) == (g, v.op)
  {
  }

  lemma FitsElem(s: S.Store, env: S.Env, arr: nat, len: nat, i: nat, u: int)
    requires S.Fits(s, env) && arr in env && env[arr] == S.Array(len) && i < len && IsInt64(u)
    ensures arr in s && s[arr].A? && |s[arr].cells| == len && S.Fits(s[arr := S.A(s[arr].cells[i := u])], env)
  {
    ArrayFits(s, env, arr, len);
  }

  lemma AssignElemRuns(code: seq<Block>, st: S.Stmt, env: S.Env, ctx: S.Ctx, s: S.Store, g: Gen, c: Config, fuel: nat, p: Places) returns (n: nat, d: Config)
    requires st.AssignElem? && Begins(st, env, ctx, s, g, c) && Ext(code, LowerAssignElem(st, g).blocks)
    ensures d == Run(code, c, n) && Reached(S.Exec(st, s, g.checks, fuel), env, env, p, c, g.regs, LowerAssignElem(st, g), d)
  {
    hide SameRegs, Ext, TargetsOk, LowerExpr, Update, Emit, Run, Ready, TidyOpen, S.Updated, S.HasType, S.Rep, MemOk, S.Fits, BoundsCheck, LowerAssignElem;
    ReadyOk(g);
    AssignElemTidy(st, g);
    TidyIs(g, LowerAssignElem(st, g), {}, {});
    var (g1, v) := LowerExpr(st.e, g);
    var (g2, iv) := LowerExpr(st.i, g1);
    var (g3, idx) := BoundsCheck(g2, iv, st.len);
    AssignElemCode(code, st, g);
    IntRep(st.i, env);
    ArrayFits(s, env, st.arr, st.len);
    n, d := ExprRuns(code, st.e, env, S.IntT, s, g, c);
    var o := S.Eval(st.e, s, g.checks);
    if o.Val? {
      var c1 := d;
      var m;
      m, d := ExprRuns(code, st.i, env, S.IntT, s, g1, c1);
      var ix := S.Eval(st.i, s, g.checks);
      Then(code, c, n, c1, m, d);
      n := n + m;
      if ix.Val? {
        var c2 := d;
        GoesOn(code, c, n - m, c1, g.regs, m, c2, g1.regs);
        HoldsLater(c1, c2, g1, v.op, Encode(o.v));
        KnownLater(g1, g2, v.op);
        m, d := BoundsCheckRuns(code, g2, iv, st.len, c2, ix.v.n);
        Then(code, c, n, c2, m, d);
        n := n + m;
        if !(g.checks && !(0 <= ix.v.n < st.len)) {
          var c3 := d;
          GoesOn(code, c, n - m, c2, g.regs, m, c3, g2.regs);
          HoldsLater(c2, c3, g2, v.op, Encode(o.v));
          KnownLater(g2, g3, v.op);
          m, d := ElemRuns(code, st, env, s, g3, v, o.v, idx, ix.v.n, c3);
          Then(code, c, n, c3, m, d);
          n := n + m;
          if 0 <= ix.v.n < st.len && S.Updated(st.how, S.I(s[st.arr].cells[ix.v.n]), o.v).Val? {
            GoesOn(code, c, n - m, c3, g.regs, m, d, g3.regs);
            FitsElem(s, env, st.arr, st.len, ix.v.n, S.Updated(st.how, S.I(s[st.arr].cells[ix.v.n]), o.v).v.n);
          }
        }
      }
    }
  }

  lemma ReturnCode(code: seq<Block>, st: S.Stmt, g: Gen)
    requires Ok(g) && st.Return? && Ext(code, LowerStmt(st, g).blocks)
    ensures var (g1, v) := LowerExpr(st.e, g);
      var (g2, w) := Coerce(g1, v, S.WidthOf(st.ty));
      && Ext(code, g1.blocks) && Ext(code, g2.blocks) && LowerStmt(st, g) == Emit(g2, Ret(w))
  {
    hide LowerExpr, Coerce, Ext, Grows, Emit;
    var (g1, v) := LowerExpr(st.e, g);
    var (g2, w) := Coerce(g1, v, S.WidthOf(st.ty));
    Descend(code, g2, Ret(w));
    ResizeGrows(g1, v, S.WidthOf(st.ty));
    ExtDown(code, g1, g2);
  }

  lemma ReturnRuns(code: seq<Block>, st: S.Stmt, env: S.Env, ctx: S.Ctx, s: S.Store, g: Gen, c: Config, fuel: nat, p: Places) returns (n: nat, d: Config)
    requires st.Return? && Begins(st, env, ctx, s, g, c) && Ext(code, LowerStmt(st, g).blocks)
    ensures d == Run(code, c, n) && Reached(S.Exec(st, s, g.checks, fuel), env, env, p, c, g.regs, LowerStmt(st, g), d)
  {
    hide SameRegs, Ext, TargetsOk, LowerExpr, Coerce, Emit, Run, Ready, S.HasType, S.Rep, MemOk, S.Fits;
    ReadyOk(g);
    ReturnCode(code, st, g);
    var (g1, v) := LowerExpr(st.e, g);
    var (g2, w) := Coerce(g1, v, S.WidthOf(st.ty));
    n, d := ExprRuns(code, st.e, env, st.ty, s, g, c);
    var o := S.Eval(st.e, s, g.checks);
    if o.Val? {
      var c1 := d;
      RepWide(st.e, env, st.ty);
      var m, c2 := CoerceRuns(code, g1, v, S.WidthOf(st.ty), o.v, st.ty, c1);
      Then(code, c, n, c1, m, c2);
      StepEmitted(code, g2, Ret(w), c2);
      d := Run(code, c2, 1);
      Then(code, c, n + m, c2, 1, d);
      n := n + m + 1;
    }
  }

  /** The block a jump leads to. */
  function JumpTarget(st: S.Stmt, p: Places): Target {
    if st.Break? then p.brk else if st.Continue? then p.cont else p.fall
  }

  lemma JumpCode(st: S.Stmt, env: S.Env, ctx: S.Ctx, g: Gen)
    requires (st.Break? || st.Continue? || st.Fallthrough?) && S.Legal(st, env, ctx) && TargetsOk(g, ctx) && Ready(g)
    ensures Ok(g) && HasTargets(g, ctx)
    ensures var to := JumpTarget(st, PlacesOf(g, ctx)); to.To? && LowerStmt(st, g) == Emit(g, Br(to.bb))
  {
    hide Ready, Emit;
    ReadyOk(g);
    TargetsHave(g, ctx);
  }

  /** break, continue and fallthrough. */
  lemma JumpRuns(code: seq<Block>, st: S.Stmt, env: S.Env, ctx: S.Ctx, s: S.Store, g: Gen, c: Config, fuel: nat) returns (n: nat, d: Config)
    requires (st.Break? || st.Continue? || st.Fallthrough? || st.ReturnVoid?) && Begins(st, env, ctx, s, g, c)
    requires Ext(code, LowerStmt(st, g).blocks)
    ensures d == Run(code, c, n) && HasTargets(g, ctx)
    ensures Reached(S.Exec(st, s, g.checks, fuel), env, env, PlacesOf(g, ctx), c, g.regs, LowerStmt(st, g), d)
  {
    hide Ready, TargetsOk, HasTargets, Ext, MemOk, SameRegs, S.Fits, S.Legal, Run, Emit, PlacesOf;
    BeginsHas(st, env, ctx, s, g, c);
    n := 1;
    if st.ReturnVoid? {
      StepEmitted(code, g, RetVoid, c);
      d := Run(code, c, 1);
    } else {
      JumpCode(st, env, ctx, g);
      d := BrRuns(code, g, JumpTarget(st, PlacesOf(g, ctx)).bb, c);
      SameRegsFork(c, d, g.regs);
    }
  }

  // ---- all statements ----

  lemma SubEnvAfter(st: S.Stmt, env: S.Env, ctx: S.Ctx)
    requires S.Legal(st, env, ctx)
    ensures SubEnv(env, S.EnvAfter(st, env))
  {
  }

  /** The variables in scope at the end of a list of statements. */
  function EnvAll(ss: S.Stmts, env: S.Env): S.Env {
    match ss
    case Nil => env
    case Cons(st, rest) => EnvAll(rest, S.EnvAfter(st, env))
  }

  lemma {:induction false} SubEnvAll(ss: S.Stmts, env: S.Env, ctx: S.Ctx)
    requires S.LegalAll(ss, env, ctx)
    ensures SubEnv(env, EnvAll(ss, env))
  {
    match ss
    case Nil =>
    case Cons(st, rest) =>
      SubEnvAfter(st, env, ctx);
      SubEnvAll(rest, S.EnvAfter(st, env), ctx.(canFall := ctx.canFall && !S.HasSwitch(st)));
  }

  lemma {:induction false} StmtRuns(code: seq<Block>, st: S.Stmt, env: S.Env, ctx: S.Ctx, s: S.Store, g: Gen, c: Config, fuel: nat)
    returns (n: nat, d: Config)
    requires Begins(st, env, ctx, s, g, c) && Ext(code, LowerStmt(st, g).blocks)
    ensures d == Run(code, c, n) && HasTargets(g, ctx)
    ensures Reached(S.Exec(st, s, g.checks, fuel), env, S.EnvAfter(st, env), PlacesOf(g, ctx), c, g.regs, LowerStmt(st, g), d)
    ensures S.Exec(st, s, g.checks, fuel).OutOfFuel? ==> n >= fuel
    decreases fuel, st, 5
  {
    hide Reached, Ext, MemOk, S.Fits;
    n, d := StmtCaseRuns(code, st, env, ctx, s, g, c, fuel, LowerStmt(st, g), S.Exec(st, s, g.checks, fuel));
  }

  lemma {:induction false} StmtCaseRuns(code: seq<Block>, st: S.Stmt, env: S.Env, ctx: S.Ctx, s: S.Store, g: Gen, c: Config, fuel: nat, h: Gen, f: S.Flow)
    returns (n: nat, d: Config)
    requires Begins(st, env, ctx, s, g, c) && h == LowerStmt(st, g) && Ext(code, h.blocks) && f == S.Exec(st, s, g.checks, fuel)
    ensures d == Run(code, c, n) && HasTargets(g, ctx)
    ensures Reached(f, env, S.EnvAfter(st, env), PlacesOf(g, ctx), c, g.regs, h, d)
    ensures f.OutOfFuel? ==> n >= fuel
    decreases fuel, st, 4
  {
    hide Reached, Ext, MemOk, S.Fits, LowerExpr, LowerIf, LowerIfElse, LowerFor, LowerForRange, LowerSwitch, LowerAssignElem, LowerAll, Begins, S.Eval;
    assert HasTargets(g, ctx) by { BeginsHas(st, env, ctx, s, g, c); }
    var p := PlacesOf(g, ctx);
    match st
    case ExprStmt(_) => n, d := ExprStmtRuns(code, st, env, ctx, s, g, c, fuel, p);
    case Declare(_, _, _) => n, d := DeclareRuns(code, st, env, ctx, s, g, c, fuel, p);
    case Assign(_, _, _, _) => n, d := AssignRuns(code, st, env, ctx, s, g, c, fuel, p);
    case AssignElem(_, _, _, _, _) => n, d := AssignElemRuns(code, st, env, ctx, s, g, c, fuel, p);
    case Block(body) => n, d := BlockRuns(code, st, env, ctx, s, g, c, fuel);
    case If(_, _) => n, d := IfRuns(code, st, env, ctx, s, g, c, fuel);
    case IfElse(_, _, _) => n, d := IfElseRuns(code, st, env, ctx, s, g, c, fuel);
    case For(_, _) => n, d := ForRuns(code, st, env, ctx, s, g, c, fuel);
    case ForRange(_, _, _, _, _) => n, d := ForRangeRuns(code, st, env, ctx, s, g, c, fuel);
    case Switch(_, _) => n, d := SwitchRuns(code, st, env, ctx, s, g, c, fuel);
    case Break => n, d := JumpRuns(code, st, env, ctx, s, g, c, fuel);
    case Continue => n, d := JumpRuns(code, st, env, ctx, s, g, c, fuel);
    case Fallthrough => n, d := JumpRuns(code, st, env, ctx, s, g, c, fuel);
    case Return(_, _) => n, d := ReturnRuns(code, st, env, ctx, s, g, c, fuel, p);
    case ReturnVoid => n, d := JumpRuns(code, st, env, ctx, s, g, c, fuel);
  }

  lemma BeginsHas(st: S.Stmt, env: S.Env, ctx: S.Ctx, s: S.Store, g: Gen, c: Config)
    requires Begins(st, env, ctx, s, g, c)
    ensures HasTargets(g, ctx) && Ok(g) && Ready(g) && TargetsOk(g, ctx) && S.Legal(st, env, ctx)
  {
  }

  ghost predicate BeginsAll(ss: S.Stmts, env: S.Env, ctx: S.Ctx, s: S.Store, g: Gen, c: Config) {
    S.LegalAll(ss, env, ctx) && Ready(g) && TargetsOk(g, ctx) && S.Fits(s, env) && At(c, g) && MemOk(s, c.mem)
  }

  lemma {:induction false} BlockRuns(code: seq<Block>, st: S.Stmt, env: S.Env, ctx: S.Ctx, s: S.Store, g: Gen, c: Config, fuel: nat)
    returns (n: nat, d: Config)
    requires st.Block? && Begins(st, env, ctx, s, g, c) && Ext(code, LowerAll(st.body, g).blocks)
    ensures d == Run(code, c, n) && HasTargets(g, ctx)
    ensures Reached(S.ExecAll(st.body, s, g.checks, fuel), env, env, PlacesOf(g, ctx), c, g.regs, LowerAll(st.body, g), d)
    ensures S.ExecAll(st.body, s, g.checks, fuel).OutOfFuel? ==> n >= fuel
    decreases fuel, st, 0
  {
    hide Reached, Ext, MemOk, S.Fits, TargetsOk, LowerAll, S.LegalAll, Ready, HasTargets;
    n, d := AllRuns(code, st.body, env, ctx, s, g, c, fuel);
    SubEnvAll(st.body, env, ctx);
    var p := PlacesOf(g, ctx);
    Narrow(S.ExecAll(st.body, s, g.checks, fuel), env, EnvAll(st.body, env), env, env, p, p, c, g.regs, LowerAll(st.body, g), d);
  }

  lemma {:induction false} AllRuns(code: seq<Block>, ss: S.Stmts, env: S.Env, ctx: S.Ctx, s: S.Store, g: Gen, c: Config, fuel: nat)
    returns (n: nat, d: Config)
    requires BeginsAll(ss, env, ctx, s, g, c) && Ext(code, LowerAll(ss, g).blocks)
    ensures d == Run(code, c, n) && HasTargets(g, ctx)
    ensures Reached(S.ExecAll(ss, s, g.checks, fuel), env, EnvAll(ss, env), PlacesOf(g, ctx), c, g.regs, LowerAll(ss, g), d)
    ensures S.ExecAll(ss, s, g.checks, fuel).OutOfFuel? ==> n >= fuel
    decreases fuel, ss, 1
  {
    match ss
    case Nil => n, d := 0, c;
    case Cons(_, _) =>
      hide *;
      n, d := ConsRuns(code, ss, env, ctx, s, g, c, fuel);
  }

  /** The lowering of the rest extends what the first statement left. */
  lemma ConsCode(code: seq<Block>, ss: S.Stmts, env: S.Env, ctx: S.Ctx, g: Gen)
    requires ss.Cons? && S.LegalAll(ss, env, ctx) && Ready(g) && TargetsOk(g, ctx) && Ext(code, LowerAll(ss, g).blocks)
    ensures Ok(g)
    ensures var g1 := LowerStmt(ss.head, g);
      Ext(code, g1.blocks) &&
      (ss.tail != S.Nil ==> Ready(g1) && TargetsOk(g1, ctx.(canFall := ctx.canFall && !S.HasSwitch(ss.head))) && g1.loops == g.loops
                              && (!S.HasSwitch(ss.head) ==> g1.fall == g.fall))
  {
    hide LowerStmt, Ext, Ready, TargetsOk, HasTargets, S.Legal, S.HasSwitch, S.Exits, Tidy;
    ReadyOk(g);
    var st, rest := ss.head, ss.tail;
    var g1 := LowerStmt(st, g);
    StmtTidy(st, g, env, ctx);
    if rest != S.Nil {
      var ctx1 := ctx.(canFall := ctx.canFall && !S.HasSwitch(st));
      TargetsLater(g, ctx, g1, S.HasSwitch(st));
      TargetsHave(g1, ctx1);
      AllTidy(rest, g1, S.EnvAfter(st, env), ctx1);
      LoweredIs(g1, ctx1, LowerAll(rest, g1), S.ExitsAll(rest), S.HasSwitchAll(rest));
      DownAppends(code, g1, LowerAll(rest, g1));
    }
  }

  lemma LoweredIs(g: Gen, ctx: S.Ctx, h: Gen, exits: bool, sw: bool)
    requires HasTargets(g, ctx) && Lowered(g, ctx, h, exits, sw)
    ensures Appends(g, h) && (!exits ==> Open(h.blocks[h.cur]))
  {
  }

  /** A list is its first statement followed by the others. */
  lemma ConsIs(ss: S.Stmts, env: S.Env, s: S.Store, g: Gen, checks: bool, fuel: nat)
    requires ss.Cons? && Ok(g)
    ensures var f := S.Exec(ss.head, s, checks, fuel);
      S.ExecAll(ss, s, checks, fuel) == if f.Normal? && ss.tail != S.Nil then S.ExecAll(ss.tail, f.s, checks, fuel) else f
    ensures LowerAll(ss, g) == if ss.tail == S.Nil then LowerStmt(ss.head, g) else LowerAll(ss.tail, LowerStmt(ss.head, g))
    ensures EnvAll(ss, env) == if ss.tail == S.Nil then S.EnvAfter(ss.head, env) else EnvAll(ss.tail, S.EnvAfter(ss.head, env))
  {
    hide S.Exec, LowerStmt;
    var f := S.Exec(ss.head, s, checks, fuel);
    if f.Normal? && ss.tail == S.Nil { assert S.ExecAll(S.Nil, f.s, checks, fuel) == f; }
  }

  lemma {:induction false} ConsRuns(code: seq<Block>, ss: S.Stmts, env: S.Env, ctx: S.Ctx, s: S.Store, g: Gen, c: Config, fuel: nat)
    returns (n: nat, d: Config)
    requires ss.Cons? && BeginsAll(ss, env, ctx, s, g, c) && Ext(code, LowerAll(ss, g).blocks)
    ensures d == Run(code, c, n) && HasTargets(g, ctx)
    ensures Reached(S.ExecAll(ss, s, g.checks, fuel), env, EnvAll(ss, env), PlacesOf(g, ctx), c, g.regs, LowerAll(ss, g), d)
    ensures S.ExecAll(ss, s, g.checks, fuel).OutOfFuel? ==> n >= fuel
    decreases fuel, ss, 0
  {
    hide Ext, MemOk, S.Fits, TargetsOk, LowerStmt, S.Legal, Ready, HasTargets, S.HasSwitch, S.Exits, S.Exec, SameRegs, Open, At, Run, Reached, S.ExecAll, LowerAll, EnvAll;
    TargetsHave(g, ctx);
    ConsCode(code, ss, env, ctx, g);
    ConsIs(ss, env, s, g, g.checks, fuel);
    var st, rest := ss.head, ss.tail;
    var g1, p, env1 := LowerStmt(st, g), PlacesOf(g, ctx), S.EnvAfter(st, env);
    n, d := StmtRuns(code, st, env, ctx, s, g, c, fuel);
    var f := S.Exec(st, s, g.checks, fuel);
    if rest == S.Nil {
    } else if f.Normal? {
      var c1, m := d, 0;
      NormalEnd(f, env, env1, p, c, g.regs, g1, c1);
      var ctx1 := ctx.(canFall := ctx.canFall && !S.HasSwitch(st));
      m, d := AllRuns(code, rest, env1, ctx1, f.s, g1, c1, fuel);
      SubEnvAfter(st, env, ctx);
      SubEnvRefl(EnvAll(rest, env1));
      var r := S.ExecAll(rest, f.s, g.checks, fuel);
      PlacesLater(g, ctx, g1, ctx1);
      Narrow(r, env1, EnvAll(rest, env1), env, EnvAll(rest, env1), PlacesOf(g1, ctx1), p, c1, g1.regs, LowerAll(rest, g1), d);
      assert Goes(code, c, n, c1, g.regs);
      After(code, c, n, c1, g.regs, r, env, EnvAll(rest, env1), p, m, g1.regs, LowerAll(rest, g1), d);
      n := n + m;
    } else {
      Abrupt(f, env, env1, p, c, g.regs, g1, d, EnvAll(ss, env), LowerAll(ss, g));
    }
  }

  lemma SubEnvRefl(env: S.Env)
    ensures SubEnv(env, env)
  {
  }

  lemma PlacesLater(g: Gen, ctx: S.Ctx, g1: Gen, ctx1: S.Ctx)
    requires HasTargets(g, ctx) && HasTargets(g1, ctx1) && g1.loops == g.loops && ctx1 == ctx.(canFall := ctx1.canFall)
    requires ctx1.canFall ==> ctx.canFall && g1.fall == g.fall
    ensures var p, p1 := PlacesOf(g, ctx), PlacesOf(g1, ctx1);
      (p1.brk.To? ==> p.brk == p1.brk) && (p1.cont.To? ==> p.cont == p1.cont) && (p1.fall.To? ==> p.fall == p1.fall)
  {
  }

  lemma NormalEnd(f: S.Flow, env: S.Env, after: S.Env, p: Places, c: Config, k: nat, h: Gen, d: Config)
    requires Reached(f, env, after, p, c, k, h, d) && f.Normal?
    ensures At(d, h) && Open(h.blocks[h.cur]) && MemOk(f.s, d.mem) && S.Fits(f.s, after) && SameRegs(c, d, k)
  {
  }

  // ---- branches ----

  /** Where a condition's evaluation ends: at g2 with the truth value in b, or abnormally. */
  ghost predicate Decided(o: S.Outcome, s: S.Store, c: Config, k: nat, g2: Gen, b: Operand, d: Config) {
    match o
    case Val(v) => v.B? && At(d, g2) && Holds(d, b, Flag(v.b)) && SameRegs(c, d, k) && MemOk(s, d.mem)
    case OutOfBounds => d == Trapped
    case Undefined => d == Stuck
  }

  lemma CondRuns(code: seq<Block>, e: S.Expr, env: S.Env, s: S.Store, g: Gen, c: Config) returns (n: nat, d: Config)
    requires Starts(e, env, S.BoolT, s, g, c)
    requires var (g1, a) := LowerExpr(e, g); Ext(code, Truth(g1, a).0.blocks)
    ensures d == Run(code, c, n)
    ensures var (g1, a) := LowerExpr(e, g);
      var (g2, b) := Truth(g1, a);
      Decided(S.Eval(e, s, g.checks), s, c, g.regs, g2, b, d)
  {
    hide LowerExpr, Truth, Ext, SameRegs, MemOk, Run, Grows, S.Fits, S.HasType;
    var (g1, a) := LowerExpr(e, g);
    TruthGrows(g1, a);
    ExtDown(code, g1, Truth(g1, a).0);
    n, d := ExprRuns(code, e, env, S.BoolT, s, g, c);
    var o := S.Eval(e, s, g.checks);
    if o.Val? {
      var c1 := d;
      var m;
      m, d := TruthRuns(code, g1, a, c1, o.v.b);
      GoesOn(code, c, n, c1, g.regs, m, d, g1.regs);
      n := n + m;
    }
  }

  lemma DecidedFailure(o: S.Outcome, s: S.Store, env: S.Env, p: Places, c: Config, k: nat, g2: Gen, b: Operand, h: Gen, d: Config)
    requires Decided(o, s, c, k, g2, b, d) && !o.Val?
    ensures Reached(S.Failure(o), env, env, p, c, k, h, d)
  {
  }

  /** The state the statement's builder is in after the test, about to lower an arm. */
  ghost predicate ArmReady(g: Gen, ctx: S.Ctx, f: Gen, pending: set<BlockId>, ctx': S.Ctx, merge: BlockId) {
    && TargetsOk(g, ctx) && TidyOpen(g, f, pending, Outer(g, ctx)) && f.loops == g.loops && merge in pending
    && ctx' == ctx.(canFall := ctx'.canFall) && (ctx'.canFall ==> ctx.canFall && f.fall == g.fall)
  }

  lemma ArmFacts(g: Gen, ctx: S.Ctx, f: Gen, pending: set<BlockId>, st: S.Stmt, env: S.Env, ctx': S.Ctx, merge: BlockId)
    requires ArmReady(g, ctx, f, pending, ctx', merge) && S.Legal(st, env, ctx')
    ensures HasTargets(g, ctx) && HasTargets(f, ctx') && Ready(f) && TargetsOk(f, ctx') && Ok(f)
    ensures var t := LowerStmt(st, f);
      Appends(f, t) && t.cur != merge && merge < |t.blocks| && t.blocks[merge] == [] && f.cur != merge && f.blocks[merge] == []
  {
    hide LowerStmt, Open, Closed, Tidy, TargetsOk, HasTargets, S.Legal, S.HasSwitch;
    TargetsHave(g, ctx);
    TidyIs(g, f, pending, Outer(g, ctx));
    TargetsKept(g, ctx, f, ctx');
    TargetsHave(f, ctx');
    InnerTidy(g, ctx, f, pending, st, env, ctx');
    var t := LowerStmt(st, f);
    PendingFresh(g, t, pending, Outer(g, ctx), merge);
    PendingFresh(g, f, pending, Outer(g, ctx), merge);
    StmtTidy(st, f, env, ctx');
    LoweredIs(f, ctx', t, S.Exits(st), S.HasSwitch(st));
  }

  /** One arm, from its first block to the merge block or wherever it jumps to. */
  lemma {:induction false} ArmRuns(code: seq<Block>, g: Gen, ctx: S.Ctx, f: Gen, pending: set<BlockId>, st: S.Stmt, env: S.Env, ctx': S.Ctx, merge: BlockId,
                                   s: S.Store, c: Config, fuel: nat, h: Gen) returns (n: nat, d: Config)
    requires ArmReady(g, ctx, f, pending, ctx', merge) && S.Legal(st, env, ctx')
    requires Ok(f) && Ext(code, Leave(LowerStmt(st, f), merge).blocks) && S.Fits(s, env) && At(c, f) && MemOk(s, c.mem)
    requires Ok(h) && h.cur == merge && h.blocks[merge] == []
    ensures d == Run(code, c, n) && HasTargets(g, ctx)
    ensures Reached(S.Exec(st, s, f.checks, fuel), env, env, PlacesOf(g, ctx), c, f.regs, h, d)
    ensures S.Exec(st, s, f.checks, fuel).OutOfFuel? ==> n >= fuel
    decreases fuel, st, 6
  {
    hide LowerStmt, TidyOpen, TargetsOk, HasTargets, S.Legal, S.HasSwitch, Ext, S.Fits, MemOk, SameRegs, Reached, ArmReady, Ready, Run, S.Exec, Open;
    ArmFacts(g, ctx, f, pending, st, env, ctx', merge);
    var t, p, env1 := LowerStmt(st, f), PlacesOf(g, ctx), S.EnvAfter(st, env);
    DownLeave(code, t, merge);
    n, d := StmtRuns(code, st, env, ctx', s, f, c, fuel);
    var fl := S.Exec(st, s, f.checks, fuel);
    SubEnvAfter(st, env, ctx');
    SubEnvRefl(env);
    ArmPlaces(g, ctx, f, pending, ctx', merge);
    Narrow(fl, env, env1, env, env, PlacesOf(f, ctx'), p, c, f.regs, t, d);
    if fl.Normal? {
      var c1 := d;
      NormalEnd(fl, env, env, p, c, f.regs, t, c1);
      OpenNotTerminated(t.blocks[t.cur]);
      d := BrRuns(code, t, merge, c1);
      SameRegsFork(c1, d, f.regs);
      GoesOn(code, c, n, c1, f.regs, 1, d, f.regs);
      NormalAt(fl, env, p, c, f.regs, h, d);
      n := n + 1;
    } else {
      Abrupt(fl, env, env, p, c, f.regs, t, d, env, h);
    }
  }

  lemma ArmPlaces(g: Gen, ctx: S.Ctx, f: Gen, pending: set<BlockId>, ctx': S.Ctx, merge: BlockId)
    requires ArmReady(g, ctx, f, pending, ctx', merge) && HasTargets(g, ctx) && HasTargets(f, ctx')
    ensures var p, p1 := PlacesOf(g, ctx), PlacesOf(f, ctx');
      (p1.brk.To? ==> p.brk == p1.brk) && (p1.cont.To? ==> p.cont == p1.cont) && (p1.fall.To? ==> p.fall == p1.fall)
  {
    PlacesLater(g, ctx, f, ctx');
  }

  lemma OpenNotTerminated(b: Block)
    requires Open(b)
    ensures !Terminated(b)
  {
  }

  lemma NormalAt(f: S.Flow, env: S.Env, p: Places, c: Config, k: nat, h: Gen, d: Config)
    requires f.Normal? && Ok(h) && h.blocks[h.cur] == [] && AtBlock(d, h.cur)
    requires MemOk(f.s, d.mem) && S.Fits(f.s, env) && SameRegs(c, d, k)
    ensures Reached(f, env, env, p, c, k, h, d)
  {
  }

  /** Behind the test of an if the builder is about to lower the arm, with the merge block pending. */
  lemma IfStart(st: S.Stmt, g: Gen, ctx: S.Ctx)
    requires st.If? && Ready(g) && TargetsOk(g, ctx)
    ensures Ok(g)
    ensures var (g1, a) := LowerExpr(st.c, g);
      var (g2, b) := Truth(g1, a);
      var f, merge := Fork(g2, b, true), |g2.blocks| + 1;
      ArmReady(g, ctx, f, {merge}, ctx, merge) && f.checks == g.checks && f.blocks[f.cur] == [] && g.regs <= f.regs && Grows(g2, f)
  {
    hide LowerExpr, Truth, Fork, Tidy, TargetsOk, Ready, HasTargets;
    ReadyOk(g);
    TargetsHave(g, ctx);
    var (g1, a) := LowerExpr(st.c, g);
    var (g2, b) := Truth(g1, a);
    CondTidy(st.c, g);
    ForkTidy(g2, b, true);
    ForkGrows(g2, b, true);
    OuterSmall(g, ctx);
    TidyAfter(g, g2, Fork(g2, b, true), {|g2.blocks| + 1}, Outer(g, ctx));
  }

  lemma IfShape(code: seq<Block>, st: S.Stmt, g: Gen, env: S.Env, ctx: S.Ctx)
    requires st.If? && S.Legal(st, env, ctx) && Ready(g) && TargetsOk(g, ctx) && Ext(code, LowerIf(st, g).blocks)
    ensures Ok(g)
    ensures var (g1, a) := LowerExpr(st.c, g);
      var (g2, b) := Truth(g1, a);
      var f, merge := Fork(g2, b, true), |g2.blocks| + 1;
      var t := Leave(LowerStmt(st.thn, f), merge);
      && ArmReady(g, ctx, f, {merge}, ctx, merge) && f.checks == g.checks && f.blocks[f.cur] == [] && g.regs <= f.regs
      && LowerIf(st, g) == Move(t, merge) && merge < |t.blocks| && t.blocks[merge] == [] && Ext(code, t.blocks) && Ext(code, f.blocks) && Ext(code, g2.blocks)
  {
    hide LowerExpr, Truth, Fork, LowerStmt, ArmReady, TargetsOk, Ready, HasTargets, Ext, S.HasType, Appends, Leave;
    IfStart(st, g, ctx);
    var (g1, a) := LowerExpr(st.c, g);
    var (g2, b) := Truth(g1, a);
    var f, merge := Fork(g2, b, true), |g2.blocks| + 1;
    ArmFacts(g, ctx, f, {merge}, st.thn, env, ctx, merge);
    var t := LowerStmt(st.thn, f);
    LeaveElsewhere(t, merge, merge);
    DownLeave(code, t, merge);
    DownAppends(code, f, t);
    ExtDown(code, g2, f);
  }

  lemma {:induction false} IfRuns(code: seq<Block>, st: S.Stmt, env: S.Env, ctx: S.Ctx, s: S.Store, g: Gen, c: Config, fuel: nat)
    returns (n: nat, d: Config)
    requires st.If? && Begins(st, env, ctx, s, g, c) && Ext(code, LowerIf(st, g).blocks)
    ensures d == Run(code, c, n) && HasTargets(g, ctx)
    ensures Reached(S.Exec(st, s, g.checks, fuel), env, env, PlacesOf(g, ctx), c, g.regs, LowerIf(st, g), d)
    ensures S.Exec(st, s, g.checks, fuel).OutOfFuel? ==> n >= fuel
    decreases fuel, st, 0
  {
    hide LowerExpr, Truth, Fork, LowerStmt, LowerIf, TidyOpen, TargetsOk, Ready, HasTargets, Ext, S.HasType, Reached, ArmReady, S.Fits, MemOk, SameRegs, Run, S.Eval, Decided;
    TargetsHave(g, ctx);
    IfShape(code, st, g, env, ctx);
    var (g1, a) := LowerExpr(st.c, g);
    var (g2, b) := Truth(g1, a);
    var f, merge := Fork(g2, b, true), |g2.blocks| + 1;
    var h, p := LowerIf(st, g), PlacesOf(g, ctx);
    n, d := CondRuns(code, st.c, env, s, g, c);
    var o := S.Eval(st.c, s, g.checks);
    if !o.Val? {
      DecidedFailure(o, s, env, p, c, g.regs, g2, b, h, d);
    } else {
      DecidedIs(o, s, c, g.regs, g2, b, d);
      var c1, m := d, 0;
      var c2 := ForkRuns(code, g2, b, true, c1, o.v.b);
      SameRegsFork(c1, c2, g.regs);
      GoesOn(code, c, n, c1, g.regs, 1, c2, g.regs);
      n := n + 1;
      d := c2;
      if o.v.b {
        m, d := ArmRuns(code, g, ctx, f, {merge}, st.thn, env, ctx, merge, s, c2, fuel, h);
        After(code, c, n, c2, g.regs, S.Exec(st.thn, s, g.checks, fuel), env, env, p, m, f.regs, h, d);
        n := n + m;
      } else {
        NormalAt(S.Normal(s), env, p, c, g.regs, h, d);
      }
    }
  }

  lemma DecidedIs(o: S.Outcome, s: S.Store, c: Config, k: nat, g2: Gen, b: Operand, d: Config)
    requires Decided(o, s, c, k, g2, b, d) && o.Val?
    ensures o.v.B? && At(d, g2) && Holds(d, b, Flag(o.v.b)) && SameRegs(c, d, k) && MemOk(s, d.mem)
  {
  }

  /** The else arm starts in its own empty block, with the then arm behind it. */
  lemma ElseReady(g: Gen, ctx: S.Ctx, f: Gen, elseBb: BlockId, merge: BlockId, st: S.Stmt, env: S.Env)
    requires ArmReady(g, ctx, f, {elseBb, merge}, ctx, merge) && elseBb != merge && f.fall == g.fall && S.Legal(st, env, ctx)
    ensures Ok(f)
    ensures var t := LowerStmt(st, f);
      var k := Move(Leave(t, merge), elseBb);
      && Ok(k) && k.blocks[elseBb] == [] && f.regs <= k.regs && k.checks == f.checks && Appends(f, t) && Ok(t)
      && ArmReady(g, ctx, k, {merge}, ctx.(canFall := ctx.canFall && !S.HasSwitch(st)), merge)
  {
    hide LowerStmt, TidyOpen, TargetsOk, HasTargets, Ready, Leave, S.Legal, S.HasSwitch;
    ArmFacts(g, ctx, f, {elseBb, merge}, st, env, ctx, merge);
    ElseFresh(g, ctx, f, elseBb, merge);
    ArmFacts(g, ctx, f, {merge, elseBb}, st, env, ctx, elseBb);
    ArmTidy(g, ctx, f, {elseBb, merge}, st, env, ctx, merge, elseBb);
    assert {elseBb, merge} - {elseBb} == {merge};
    LeaveElsewhere(LowerStmt(st, f), merge, elseBb);
  }

  lemma ElseFresh(g: Gen, ctx: S.Ctx, f: Gen, elseBb: BlockId, merge: BlockId)
    requires ArmReady(g, ctx, f, {elseBb, merge}, ctx, merge)
    ensures {elseBb, merge} == {merge, elseBb} && ArmReady(g, ctx, f, {merge, elseBb}, ctx, elseBb)
  {
    assert {elseBb, merge} == {merge, elseBb};
  }

  lemma IfElseStart(st: S.Stmt, g: Gen, env: S.Env, ctx: S.Ctx)
    requires st.IfElse? && Ready(g) && TargetsOk(g, ctx)
    ensures Ok(g)
    ensures var (g1, a) := LowerExpr(st.c, g);
      var (g2, b) := Truth(g1, a);
      var f, elseBb, merge := Fork3(g2, b), |g2.blocks| + 1, |g2.blocks| + 2;
      && ArmReady(g, ctx, f, {elseBb, merge}, ctx, merge) && f.checks == g.checks && f.fall == g.fall
      && f.blocks[f.cur] == [] && g.regs <= f.regs && Grows(g2, f)
  {
    hide LowerExpr, Truth, Fork3, Tidy, TargetsOk, Ready, HasTargets;
    ReadyOk(g);
    TargetsHave(g, ctx);
    var (g1, a) := LowerExpr(st.c, g);
    var (g2, b) := Truth(g1, a);
    CondTidy(st.c, g);
    Fork3Tidy(g2, b);
    Fork3Grows(g2, b);
    OuterSmall(g, ctx);
    TidyAfter(g, g2, Fork3(g2, b), {|g2.blocks| + 1, |g2.blocks| + 2}, Outer(g, ctx));
  }

  /** The two arms are in the code, and the merge block is still empty. */
  lemma ArmsCode(code: seq<Block>, g: Gen, ctx: S.Ctx, f: Gen, elseBb: BlockId, merge: BlockId, st: S.Stmt, env: S.Env)
    requires st.IfElse? && S.Legal(st, env, ctx) && ArmReady(g, ctx, f, {elseBb, merge}, ctx, merge) && elseBb != merge && f.fall == g.fall
    requires Ok(f) && Ok(Move(Leave(LowerStmt(st.thn, f), merge), elseBb))
    requires Ext(code, Leave(LowerStmt(st.els, Move(Leave(LowerStmt(st.thn, f), merge), elseBb)), merge).blocks)
    ensures var t := Leave(LowerStmt(st.thn, f), merge);
      var u := Leave(LowerStmt(st.els, Move(t, elseBb)), merge);
      Ext(code, t.blocks) && Ext(code, f.blocks) && merge < |u.blocks| && u.blocks[merge] == []
  {
    hide LowerStmt, ArmReady, TargetsOk, HasTargets, Ready, Leave, S.Legal, S.HasSwitch, Ext;
    IfElseLegal(st, env, ctx);
    ElseReady(g, ctx, f, elseBb, merge, st.thn, env);
    var t := LowerStmt(st.thn, f);
    var k := Move(Leave(t, merge), elseBb);
    ArmFacts(g, ctx, k, {merge}, st.els, env, ctx.(canFall := ctx.canFall && !S.HasSwitch(st.thn)), merge);
    var u := LowerStmt(st.els, k);
    LeaveElsewhere(u, merge, merge);
    DownLeave(code, u, merge);
    DownAppends(code, k, u);
    DownLeave(code, t, merge);
    DownAppends(code, f, t);
  }

  lemma IfElseIs(st: S.Stmt, g: Gen)
    requires st.IfElse? && Ok(g)
    ensures var (g1, a) := LowerExpr(st.c, g);
      var (g2, b) := Truth(g1, a);
      var t := Leave(LowerStmt(st.thn, Fork3(g2, b)), |g2.blocks| + 2);
      Ok(Move(t, |g2.blocks| + 1)) &&
      LowerIfElse(st, g) == Move(Leave(LowerStmt(st.els, Move(t, |g2.blocks| + 1)), |g2.blocks| + 2), |g2.blocks| + 2)
  {
    hide LowerExpr, Truth, Fork3, LowerStmt, Leave;
  }

  lemma IfElseLegal(st: S.Stmt, env: S.Env, ctx: S.Ctx)
    requires st.IfElse? && S.Legal(st, env, ctx)
    ensures S.HasType(st.c, env, S.BoolT) && S.Legal(st.thn, env, ctx) && S.Legal(st.els, env, ctx.(canFall := ctx.canFall && !S.HasSwitch(st.thn)))
  {
  }

  lemma {:induction false} IfElseRuns(code: seq<Block>, st: S.Stmt, env: S.Env, ctx: S.Ctx, s: S.Store, g: Gen, c: Config, fuel: nat)
    returns (n: nat, d: Config)
    requires st.IfElse? && Begins(st, env, ctx, s, g, c) && Ext(code, LowerIfElse(st, g).blocks)
    ensures d == Run(code, c, n) && HasTargets(g, ctx)
    ensures Reached(S.Exec(st, s, g.checks, fuel), env, env, PlacesOf(g, ctx), c, g.regs, LowerIfElse(st, g), d)
    ensures S.Exec(st, s, g.checks, fuel).OutOfFuel? ==> n >= fuel
    decreases fuel, st, 0
  {
    hide LowerExpr, Truth, Fork3, LowerStmt, LowerIfElse, TidyOpen, TargetsOk, Ready, HasTargets, Ext, S.HasType, Reached, ArmReady, S.Fits, MemOk, SameRegs, Run, S.Eval, Decided, Leave, S.Legal, S.HasSwitch;
    TargetsHave(g, ctx);
    IfElseLegal(st, env, ctx);
    IfElseStart(st, g, env, ctx);
    var (g1, a) := LowerExpr(st.c, g);
    var (g2, b) := Truth(g1, a);
    var f, elseBb, merge := Fork3(g2, b), |g2.blocks| + 1, |g2.blocks| + 2;
    ElseReady(g, ctx, f, elseBb, merge, st.thn, env);
    var k := Move(Leave(LowerStmt(st.thn, f), merge), elseBb);
    var h, p := LowerIfElse(st, g), PlacesOf(g, ctx);
    IfElseIs(st, g);
    ArmsCode(code, g, ctx, f, elseBb, merge, st, env);
    ExtDown(code, g2, f);
    n, d := CondRuns(code, st.c, env, s, g, c);
    var o := S.Eval(st.c, s, g.checks);
    if !o.Val? {
      DecidedFailure(o, s, env, p, c, g.regs, g2, b, h, d);
    } else {
      DecidedIs(o, s, c, g.regs, g2, b, d);
      var c1, m := d, 0;
      var c2 := Fork3Runs(code, g2, b, c1, o.v.b);
      SameRegsFork(c1, c2, g.regs);
      GoesOn(code, c, n, c1, g.regs, 1, c2, g.regs);
      n := n + 1;
      if o.v.b {
        m, d := ArmRuns(code, g, ctx, f, {elseBb, merge}, st.thn, env, ctx, merge, s, c2, fuel, h);
        After(code, c, n, c2, g.regs, S.Exec(st.thn, s, g.checks, fuel), env, env, p, m, f.regs, h, d);
      } else {
        m, d := ArmRuns(code, g, ctx, k, {merge}, st.els, env, ctx.(canFall := ctx.canFall && !S.HasSwitch(st.thn)), merge, s, c2, fuel, h);
        After(code, c, n, c2, g.regs, S.Exec(st.els, s, g.checks, fuel), env, env, p, m, k.regs, h, d);
      }
      n := n + m;
    }
  }

  // ---- for ----

  /** What the loop hands on, given how its body ended. */
  function LeavesLoop(f: S.Flow): S.Flow {
    if f.Broke? then S.Normal(f.s) else f
  }

  function BodyCtx(ctx: S.Ctx, canContinue: bool, canFall: bool): S.Ctx { S.Ctx(true, canContinue, canFall, ctx.depth + 1) }

  /** The state a loop's body is lowered from. */
  ghost predicate BodyReady(g: Gen, ctx: S.Ctx, f: Gen, t: LoopTarget) {
    && HasTargets(g, ctx) && Ready(f) && f.loops == g.loops + [t] && f.fall == g.fall && t.continueBb.To?
    && TargetsOk(f, BodyCtx(ctx, true, ctx.canFall)) && f.blocks[f.cur] == [] && f.checks == g.checks && g.regs <= f.regs
  }

  /** A body that ended by a jump other than to the loop's own next round. */
  lemma BodyLeft(g: Gen, ctx: S.Ctx, f: Gen, t: LoopTarget, fl: S.Flow, env: S.Env, env': S.Env, after: S.Env, c: Config, k: nat, h: Gen, d: Config, last: Gen)
    requires BodyReady(g, ctx, f, t) && HasTargets(f, BodyCtx(ctx, true, ctx.canFall))
    requires Reached(fl, env', after, PlacesOf(f, BodyCtx(ctx, true, ctx.canFall)), c, k, h, d) && !fl.Normal? && !fl.Continued?
    requires SubEnv(env, env') && Ok(last) && last.cur == t.breakBb && last.blocks[last.cur] == []
    ensures Reached(LeavesLoop(fl), env, env, PlacesOf(g, ctx), c, k, last, d)
  {
    hide MemOk, SameRegs, S.Fits, SubEnv, Ready, TargetsOk;
    assert Top(f) == t;
    if fl.Broke? || fl.Fell? { FitsSub(fl.s, env, env'); }
  }

  /** A body that goes on to the block `next`, by falling off its end or by `continue`. */
  lemma BodyEnds(code: seq<Block>, g: Gen, ctx: S.Ctx, f: Gen, t: LoopTarget, fl: S.Flow, env': S.Env, after: S.Env, c: Config, h: Gen, c1: Config)
    returns (n: nat, d: Config)
    requires BodyReady(g, ctx, f, t) && HasTargets(f, BodyCtx(ctx, true, ctx.canFall)) && SubEnv(env', after)
    requires Reached(fl, env', after, PlacesOf(f, BodyCtx(ctx, true, ctx.canFall)), c, f.regs, h, c1) && (fl.Normal? || fl.Continued?)
    requires Ok(h) && Ext(code, Leave(h, t.continueBb.bb).blocks)
    ensures d == Run(code, c1, n) && AtBlock(d, t.continueBb.bb) && Kept(fl.s, env', c, f.regs, d)
  {
    hide MemOk, S.Fits, SubEnv, Ready, TargetsOk, Ext;
    assert Top(f) == t;
    if fl.Normal? {
      OpenNotTerminated(h.blocks[h.cur]);
      d := BrRuns(code, h, t.continueBb.bb, c1);
      n := 1;
      FitsSub(fl.s, env', after);
    } else {
      n, d := 0, c1;
    }
  }

  lemma TestRuns(code: seq<Block>, cond: S.MaybeExpr, env: S.Env, s: S.Store, g: Gen, body: BlockId, end: BlockId, c: Config) returns (n: nat, d: Config)
    requires Ok(g) && At(c, g) && MemOk(s, c.mem) && S.Fits(s, env) && (cond.TheExpr? ==> S.HasType(cond.e, env, S.BoolT))
    requires Ext(code, LowerTest(cond, g, body, end).blocks)
    ensures d == Run(code, c, n)
    ensures match Tested(cond, s, g.checks)
      case Val(v) => n > 0 && v.B? && AtBlock(d, if v.b then body else end) && SameRegs(c, d, g.regs) && MemOk(s, d.mem)
      case OutOfBounds => d == Trapped
      case Undefined => d == Stuck
  {
    hide LowerExpr, Truth, Ext, SameRegs, MemOk, Run, Grows, S.Fits, S.HasType, Decided, S.Eval;
    if cond.NoExpr? {
      d := BrRuns(code, g, body, c);
      SameRegsFork(c, d, g.regs);
      n := 1;
    } else {
      var (g1, a) := LowerExpr(cond.e, g);
      var (g2, b) := Truth(g1, a);
      var i := CondBr(b, body, end);
      Descend(code, g2, i);
      n, d := CondRuns(code, cond.e, env, s, g, c);
      var o := S.Eval(cond.e, s, g.checks);
      if o.Val? {
        DecidedIs(o, s, c, g.regs, g2, b, d);
        var c1 := d;
        StepEmitted(code, g2, i, c1);
        d := Run(code, c1, 1);
        SameRegsFork(c1, d, g.regs);
        GoesOn(code, c, n, c1, g.regs, 1, d, g.regs);
        n := n + 1;
      } else {
        DecidedNot(o, s, c, g.regs, g2, b, d);
      }
    }
  }

  function Tested(cond: S.MaybeExpr, s: S.Store, checks: bool): S.Outcome {
    if cond.TheExpr? then S.Eval(cond.e, s, checks) else S.Val(S.B(true))
  }

  lemma DecidedNot(o: S.Outcome, s: S.Store, c: Config, k: nat, g2: Gen, b: Operand, d: Config)
    requires Decided(o, s, c, k, g2, b, d) && !o.Val?
    ensures d == if o.OutOfBounds? then Trapped else Stuck
  {
  }

  lemma ForFacts(code: seq<Block>, st: S.Stmt, g: Gen, env: S.Env, ctx: S.Ctx)
    requires st.For? && S.Legal(st, env, ctx) && Ready(g) && TargetsOk(g, ctx) && Ext(code, LowerFor(st, g).blocks)
    ensures Ok(g)
    ensures var n := |g.blocks|;
      var f, t := ForHead(st.cond, g), LoopTarget(To(n), n + 2);
      var h := LowerAll(st.body, f);
      && BodyReady(g, ctx, f, t) && HasTargets(f, BodyCtx(ctx, true, ctx.canFall)) && f.cur == n + 1
      && n + 2 < |h.blocks| && h.blocks[n + 2] == [] && h.cur != n + 2
      && Ext(code, Leave(h, n).blocks) && Ext(code, h.blocks) && Ext(code, f.blocks)
  {
    hide LowerAll, TidyOpen, Tidy, TargetsOk, HasTargets, Ready, ForHead, Ext, S.LegalAll, S.HasType, Outer, Leave, Pop;
    ReadyOk(g);
    TargetsHave(g, ctx);
    DepthSmall(g, ctx);
    ForHeadTidy(st.cond, g, ctx);
    var n, outer := |g.blocks|, Outer(g, ctx);
    var f, t := ForHead(st.cond, g), LoopTarget(To(n), n + 2);
    TidyIs(g, f, {n + 2}, outer);
    BodyTargets(g, ctx, f, t, {n + 2}, true, f.fall, ctx.canFall);
    TargetsHave(f, BodyCtx(ctx, true, ctx.canFall));
    BodyTidy(g, ctx, f, t, {n + 2}, st.body, env, true, f.fall, ctx.canFall);
    var h := LowerAll(st.body, f);
    PendingFresh(g, h, {n + 2}, outer, n + 2);
    DownLeave(code, h, n) by { assert LowerFor(st, g).blocks == Leave(h, n).blocks by { PopBlocks(Leave(h, n)); } }
    DownAppends(code, f, h);
  }

  lemma PopBlocks(g: Gen)
    ensures Pop(g).blocks == g.blocks && Pop(g).cur == g.cur
  {
  }

  lemma {:induction false} ForRuns(code: seq<Block>, st: S.Stmt, env: S.Env, ctx: S.Ctx, s: S.Store, g: Gen, c: Config, fuel: nat)
    returns (n: nat, d: Config)
    requires st.For? && Begins(st, env, ctx, s, g, c) && Ext(code, LowerFor(st, g).blocks)
    ensures d == Run(code, c, n) && HasTargets(g, ctx)
    ensures Reached(S.Exec(st, s, g.checks, fuel), env, env, PlacesOf(g, ctx), c, g.regs, LowerFor(st, g), d)
    ensures S.Exec(st, s, g.checks, fuel).OutOfFuel? ==> n >= fuel
    decreases fuel, st, 2
  {
    hide LowerAll, LowerFor, LowerTest, TidyOpen, Tidy, TargetsOk, HasTargets, Ready, Ext, S.Legal, S.HasType, Outer, Leave, Pop, Reached, BodyReady, S.Fits, MemOk, SameRegs, Run, ForHead, S.Iterate, EnterLoop;
    ForFacts(code, st, g, env, ctx);
    ForEntry(code, st, g);
    var n0 := |g.blocks|;
    var g1 := Push(NewBlocks(g, 3), LoopTarget(To(n0), n0 + 2));
    var c1 := BrRuns(code, g1, n0, c);
    SameRegsFork(c, c1, g.regs);
    assert Goes(code, c, 1, c1, g.regs);
    n, d := IterateRuns(code, st, env, ctx, s, g, c1, fuel);
    After(code, c, 1, c1, g.regs, S.Iterate(st.cond, st.body, s, g.checks, fuel), env, env, PlacesOf(g, ctx), n, g.regs, LowerFor(st, g), d);
    n := 1 + n;
  }

  /** The entry of the loop is in the code. */
  lemma ForEntry(code: seq<Block>, st: S.Stmt, g: Gen)
    requires st.For? && Ready(g) && Ext(code, ForHead(st.cond, g).blocks)
    ensures Ok(g)
    ensures var n := |g.blocks|;
      var g1 := Push(NewBlocks(g, 3), LoopTarget(To(n), n + 2));
      var g2 := EnterLoop(g, 3, LoopTarget(To(n), n + 2));
      && Ok(g1) && g1.cur == g.cur && g1.blocks[g1.cur] == g.blocks[g.cur] && g1.regs == g.regs
      && Ext(code, Emit(g1, Br(n)).blocks) && g2.blocks == Emit(g1, Br(n)).blocks && g2.cur == n && g2.blocks[n] == [] && g2.checks == g.checks && g2.regs == g.regs
      && Ext(code, LowerTest(st.cond, g2, n + 1, n + 2).blocks)
  {
    hide LowerTest, Ready, Ext, Tidy;
    ReadyOk(g);
    var n := |g.blocks|;
    var t := LoopTarget(To(n), n + 2);
    EnterTidy(g, 3, t);
    var g2 := EnterLoop(g, 3, t);
    ReadyAfter(g, g2, Ids(n + 1, 2), {});
    TestGrows(st.cond, g2, n + 1, n + 2);
    ExtDown(code, g2, LowerTest(st.cond, g2, n + 1, n + 2));
  }

  lemma TestGrows(cond: S.MaybeExpr, g: Gen, body: BlockId, end: BlockId)
    requires Ok(g)
    ensures Grows(g, LowerTest(cond, g, body, end))
  {
    if cond.TheExpr? {
      hide LowerExpr, Truth, Grows;
      var (g1, a) := LowerExpr(cond.e, g);
      ExprGrows(cond.e, g);
      var (g2, b) := Truth(g1, a);
      TruthGrows(g1, a);
      Trans(g, g1, g2);
      DefineGrows(g2, CondBr(b, body, end));
      Trans(g, g2, Emit(g2, CondBr(b, body, end)));
    }
  }

  ghost predicate LoopBegins(st: S.Stmt, env: S.Env, ctx: S.Ctx, s: S.Store, g: Gen) {
    S.Legal(st, env, ctx) && Ready(g) && TargetsOk(g, ctx) && S.Fits(s, env)
  }

  lemma {:induction false} IterateRuns(code: seq<Block>, st: S.Stmt, env: S.Env, ctx: S.Ctx, s: S.Store, g: Gen, c: Config, fuel: nat)
    returns (n: nat, d: Config)
    requires st.For? && LoopBegins(st, env, ctx, s, g) && AtBlock(c, |g.blocks|) && MemOk(s, c.mem) && Ext(code, LowerFor(st, g).blocks)
    ensures d == Run(code, c, n) && HasTargets(g, ctx)
    ensures Reached(S.Iterate(st.cond, st.body, s, g.checks, fuel), env, env, PlacesOf(g, ctx), c, g.regs, LowerFor(st, g), d)
    ensures S.Iterate(st.cond, st.body, s, g.checks, fuel).OutOfFuel? ==> n >= fuel
    decreases fuel, st, 1
  {
    hide LowerAll, LowerFor, LowerTest, TidyOpen, Tidy, TargetsOk, HasTargets, Ready, Ext, S.LegalAll, S.HasType, Outer, Leave, Pop, Reached, BodyReady, S.Fits, MemOk, SameRegs, Run, ForHead, EnterLoop, S.ExecAll, S.Eval;
    ForFacts(code, st, g, env, ctx);
    ForEntry(code, st, g);
    TargetsHave(g, ctx);
    var n0, p, last := |g.blocks|, PlacesOf(g, ctx), LowerFor(st, g);
    var g2 := EnterLoop(g, 3, LoopTarget(To(n0), n0 + 2));
    if fuel == 0 {
      n, d := 0, Run(code, c, 0);
      RunNone(code, c);
      NoFuel(env, p, c, g.regs, last, d);
    } else {
      n, d := TestRuns(code, st.cond, env, s, g2, n0 + 1, n0 + 2, c);
      var o := Tested(st.cond, s, g.checks);
      if !o.Val? {
        Failed(o, env, p, c, g.regs, last, d);
      } else {
        assert Goes(code, c, n, d, g.regs);
        ForEnd(st, g, env, ctx);
        if !o.v.b {
          NormalAt(S.Normal(s), env, p, c, g.regs, last, d);
        } else {
          var c1, m := d, 0;
          m, d := RoundRuns(code, st, env, ctx, s, g, c1, fuel);
          After(code, c, n, c1, g.regs, S.Iterate(st.cond, st.body, s, g.checks, fuel), env, env, p, m, g.regs, last, d);
          n := n + m;
        }
      }
    }
  }

  lemma NoFuel(env: S.Env, p: Places, c: Config, k: nat, h: Gen, d: Config)
    requires d.Running?
    ensures Reached(S.OutOfFuel, env, env, p, c, k, h, d)
  {
  }

  lemma Failed(o: S.Outcome, env: S.Env, p: Places, c: Config, k: nat, h: Gen, d: Config)
    requires !o.Val? && d == if o.OutOfBounds? then Trapped else Stuck
    ensures Reached(S.Failure(o), env, env, p, c, k, h, d)
  {
  }

  /** After the loop the builder is in the still empty end block. */
  lemma ForEnd(st: S.Stmt, g: Gen, env: S.Env, ctx: S.Ctx)
    requires st.For? && Ok(g)
    requires var h := LowerAll(st.body, ForHead(st.cond, g)); |g.blocks| + 2 < |h.blocks| && h.blocks[|g.blocks| + 2] == [] && h.cur != |g.blocks| + 2
    ensures var last := LowerFor(st, g); Ok(last) && last.cur == |g.blocks| + 2 && last.blocks[last.cur] == []
  {
    hide LowerAll, ForHead;
    LeaveElsewhere(LowerAll(st.body, ForHead(st.cond, g)), |g.blocks|, |g.blocks| + 2);
  }

  /** The body once, and the rest of the loop. */
  lemma {:induction false} RoundRuns(code: seq<Block>, st: S.Stmt, env: S.Env, ctx: S.Ctx, s: S.Store, g: Gen, c: Config, fuel: nat)
    returns (n: nat, d: Config)
    requires st.For? && LoopBegins(st, env, ctx, s, g) && AtBlock(c, |g.blocks| + 1) && MemOk(s, c.mem) && Ext(code, LowerFor(st, g).blocks)
    requires fuel > 0 && Tested(st.cond, s, g.checks) == S.Val(S.B(true))
    ensures d == Run(code, c, n) && HasTargets(g, ctx)
    ensures Reached(S.Iterate(st.cond, st.body, s, g.checks, fuel), env, env, PlacesOf(g, ctx), c, g.regs, LowerFor(st, g), d)
    ensures S.Iterate(st.cond, st.body, s, g.checks, fuel).OutOfFuel? ==> n + 1 >= fuel
    decreases fuel, st, 0
  {
    hide LowerAll, LowerFor, LowerTest, TidyOpen, Tidy, TargetsOk, HasTargets, Ready, Ext, S.HasType, Outer, Leave, Pop, Reached, S.Fits, MemOk, SameRegs, Run, ForHead, EnterLoop, S.ExecAll, S.Eval;
    ForFacts(code, st, g, env, ctx);
    TargetsHave(g, ctx);
    ForEnd(st, g, env, ctx);
    var n0, p, last := |g.blocks|, PlacesOf(g, ctx), LowerFor(st, g);
    var f, t, ctx' := ForHead(st.cond, g), LoopTarget(To(n0), n0 + 2), BodyCtx(ctx, true, ctx.canFall);
    var h := LowerAll(st.body, f);
    n, d := AllRuns(code, st.body, env, ctx', s, f, c, fuel - 1);
    var fl := S.ExecAll(st.body, s, g.checks, fuel - 1);
    SubEnvAll(st.body, env, ctx');
    SubEnvRefl(env);
    if fl.Normal? || fl.Continued? {
      var c1 := d;
      var m, c2 := BodyEnds(code, g, ctx, f, t, fl, env, EnvAll(st.body, env), c, h, c1);
      Then(code, c, n, c1, m, c2);
      n := n + m;
      KeptGoes(code, fl.s, env, c, n, f.regs, c2, g.regs);
      m, d := IterateRuns(code, st, env, ctx, fl.s, g, c2, fuel - 1);
      After(code, c, n, c2, g.regs, S.Iterate(st.cond, st.body, fl.s, g.checks, fuel - 1), env, env, p, m, g.regs, last, d);
      n := n + m;
    } else {
      BodyLeft(g, ctx, f, t, fl, env, env, EnvAll(st.body, env), c, f.regs, h, d, last);
      FewerKept(LeavesLoop(fl), env, p, c, f.regs, g.regs, last, d);
    }
  }

  lemma KeptGoes(code: seq<Block>, s: S.Store, env: S.Env, c: Config, n: nat, k: nat, d: Config, j: nat)
    requires Kept(s, env, c, k, d) && Run(code, c, n) == d && j <= k
    ensures Goes(code, c, n, d, j) && MemOk(s, d.mem) && S.Fits(s, env)
  {
    FewerRegs(c, d, j, k);
  }

  lemma FewerKept(f: S.Flow, env: S.Env, p: Places, c: Config, k: nat, j: nat, h: Gen, d: Config)
    requires Reached(f, env, env, p, c, k, h, d) && j <= k
    ensures Reached(f, env, env, p, c, j, h, d)
  {
    hide MemOk, S.Fits;
    if f.Normal? || f.Broke? || f.Continued? || f.Fell? { FewerRegs(c, d, j, k); }
  }

  // ---- for over a range ----

  lemma BoundsCode(code: seq<Block>, lo: S.Expr, hi: S.Expr, inclusive: bool, g: Gen)
    requires Ok(g) && Ext(code, LowerBounds(lo, hi, inclusive, g).0.blocks)
    ensures var (g1, low) := LowerExpr(lo, g);
      var (g2, high) := LowerExpr(hi, g1);
      && Ext(code, g1.blocks) && Ext(code, g2.blocks) && Known(g2, low.op) && LowerBounds(lo, hi, inclusive, g) == StorePair(g2, low.op, high.op, inclusive)
  {
    hide LowerExpr, Ext, Grows;
    var (g1, low) := LowerExpr(lo, g);
    var (g2, high) := LowerExpr(hi, g1);
    KnownLater(g1, g2, low.op);
    PairDown(code, g2, low.op, high.op, inclusive);
    ExprGrows(hi, g1);
    ExtDown(code, g1, g2);
  }

  lemma PairDown(code: seq<Block>, g: Gen, low: Operand, high: Operand, inclusive: bool)
    requires Ok(g) && Ext(code, StorePair(g, low, high, inclusive).0.blocks)
    ensures Ext(code, g.blocks)
  {
    var h := g.(temps := g.temps + 1);
    DownAll(code, h, PairCode(Temp(g.temps), g.regs, low, high, inclusive), if inclusive then 3 else 2);
  }

  lemma WordPlusOne(b: int)
    ensures BinWord(Add, ToWord(b), 1) == Some(ToWord(Wrap(b + 1))) && IsInt64(Wrap(b + 1))
  {
    WordOfWords(b, 1);
    WrapWord(b + 1);
  }

  /** Allocate the pair and set its lower field. */
  lemma PairOpens(code: seq<Block>, g: Gen, ins: seq<Instr>, n: nat, t: Region, low: Operand, w: nat, c: Config) returns (d: Config)
    requires At(c, g) && Ext(code, EmitAll(g, ins, n).blocks) && |ins| >= 2 && ins[0] == Alloca(t, 2) && ins[1] == Store(low, t, Imm(0), 64)
    requires Holds(c, low, w) && t.Temp?
    ensures d == Run(code, c, 2) && d == c.(pc := c.pc + 2, mem := c.mem[t := [w, 0]])
  {
    PieceStep(code, g, ins, n, c, c, 0);
    var c1 := Run(code, c, 1);
    PieceStep(code, g, ins, n, c, c1, 1);
    d := Run(code, c1, 1);
    Then(code, c, 1, c1, 1, d);
    assert seq(2, _ => 0)[0 := w] == [w, 0];
    assert c.mem[t := seq(2, _ => 0)][t := [w, 0]] == c.mem[t := [w, 0]];
  }

  /** Set the pair's upper field and read both fields into q and q + 1. */
  lemma PairCloses(code: seq<Block>, g: Gen, ins: seq<Instr>, n: nat, j: nat, t: Region, high: Operand, q: nat, w: nat, e: nat, c0: Config, c: Config)
    returns (d: Config)
    requires At(c0, g) && Ext(code, EmitAll(g, ins, n).blocks) && |ins| == j + 3
    requires ins[j] == Store(high, t, Imm(1), 64) && ins[j + 1] == Load(q, t, Imm(0)) && ins[j + 2] == Load(q + 1, t, Imm(1))
    requires c.Running? && c.bb == c0.bb && c.pc == c0.pc + j && t in c.mem && c.mem[t] == [w, 0] && Holds(c, high, e) && t.Temp?
    ensures d == Run(code, c, 3) && d == c.(pc := c.pc + 3, regs := c.regs[q := w][q + 1 := e], mem := c.mem[t := [w, e]])
  {
    PieceStep(code, g, ins, n, c0, c, j);
    var c1 := Run(code, c, 1);
    assert [w, 0][1 := e] == [w, e];
    PieceStep(code, g, ins, n, c0, c1, j + 1);
    var c2 := Run(code, c1, 1);
    PieceStep(code, g, ins, n, c0, c2, j + 2);
    d := Run(code, c2, 1);
    Then(code, c, 1, c1, 1, c2);
    Then(code, c, 2, c2, 1, d);
  }

  /** The pair's fields come back as they were stored, the upper one increased for an inclusive range. */
  lemma PairRuns(code: seq<Block>, g: Gen, low: Operand, high: Operand, inclusive: bool, s: S.Store, a: int, b: int, c: Config)
    returns (n: nat, d: Config)
    requires At(c, g) && Known(g, low) && Known(g, high) && Ext(code, StorePair(g, low, high, inclusive).0.blocks)
    requires IsInt64(a) && IsInt64(b) && Holds(c, low, ToWord(a)) && Holds(c, high, ToWord(b)) && MemOk(s, c.mem)
    ensures var (h, l, e) := StorePair(g, low, high, inclusive);
      && d == Run(code, c, n) && At(d, h) && Holds(d, l, ToWord(a)) && Holds(d, e, ToWord(S.RangeEnd(b, inclusive)))
      && IsInt64(S.RangeEnd(b, inclusive)) && SameRegs(c, d, g.regs) && MemOk(s, d.mem)
  {
    hide StorePair, Ext, Run, MemOk, SameRegs, ToWord;
    if inclusive {
      d := InclusivePairRuns(code, g, low, high, s, a, b, c);
      n := 6;
    } else {
      d := ExclusivePairRuns(code, g, low, high, s, a, b, c);
      n := 5;
    }
  }

  lemma InclusivePairRuns(code: seq<Block>, g: Gen, low: Operand, high: Operand, s: S.Store, a: int, b: int, c: Config) returns (d: Config)
    requires At(c, g) && Known(g, low) && Known(g, high) && Ext(code, StorePair(g, low, high, true).0.blocks)
    requires IsInt64(a) && IsInt64(b) && Holds(c, low, ToWord(a)) && Holds(c, high, ToWord(b)) && MemOk(s, c.mem)
    ensures var (h, l, e) := StorePair(g, low, high, true);
      && d == Run(code, c, 6) && At(d, h) && Holds(d, l, ToWord(a)) && Holds(d, e, ToWord(S.RangeEnd(b, true)))
      && IsInt64(S.RangeEnd(b, true)) && SameRegs(c, d, g.regs) && MemOk(s, d.mem)
  {
    hide ToWord, Ext, Run, BinWord, Wrap, IsInt64;
    var t, r := Temp(g.temps), g.regs;
    var h := g.(temps := g.temps + 1);
    var ins := PairCode(t, r, low, high, true);
    assert EmitAll(h, ins, 3).blocks[g.cur] == g.blocks[g.cur] + ins;
    WordPlusOne(b);
    var c1 := PairOpens(code, h, ins, 3, t, low, ToWord(a), c);
    PieceStep(code, h, ins, 3, c, c1, 2);
    var c2 := Run(code, c1, 1);
    d := PairCloses(code, h, ins, 3, 3, t, Reg(r), r + 1, ToWord(a), ToWord(Wrap(b + 1)), c, c2);
    Then(code, c, 2, c1, 1, c2);
    Then(code, c, 3, c2, 3, d);
  }

  lemma ExclusivePairRuns(code: seq<Block>, g: Gen, low: Operand, high: Operand, s: S.Store, a: int, b: int, c: Config) returns (d: Config)
    requires At(c, g) && Known(g, low) && Known(g, high) && Ext(code, StorePair(g, low, high, false).0.blocks)
    requires IsInt64(a) && IsInt64(b) && Holds(c, low, ToWord(a)) && Holds(c, high, ToWord(b)) && MemOk(s, c.mem)
    ensures var (h, l, e) := StorePair(g, low, high, false);
      && d == Run(code, c, 5) && At(d, h) && Holds(d, l, ToWord(a)) && Holds(d, e, ToWord(S.RangeEnd(b, false)))
      && IsInt64(S.RangeEnd(b, false)) && SameRegs(c, d, g.regs) && MemOk(s, d.mem)
  {
    hide ToWord, Ext, Run, BinWord, Wrap, IsInt64;
    var t, r := Temp(g.temps), g.regs;
    var h := g.(temps := g.temps + 1);
    var ins := PairCode(t, r, low, high, false);
    assert EmitAll(h, ins, 2).blocks[g.cur] == g.blocks[g.cur] + ins;
    var c1 := PairOpens(code, h, ins, 2, t, low, ToWord(a), c);
    d := PairCloses(code, h, ins, 2, 2, t, high, r, ToWord(a), ToWord(b), c, c1);
    Then(code, c, 2, c1, 3, d);
  }

  /** Where the evaluation of the bounds ends. */
  ghost predicate Bounded(o1: S.Outcome, o2: S.Outcome, inclusive: bool, s: S.Store, c: Config, k: nat, r: (Gen, Operand, Operand), d: Config) {
    if !o1.Val? then d == (if o1.OutOfBounds? then Trapped else Stuck)
    else if !o2.Val? then d == (if o2.OutOfBounds? then Trapped else Stuck)
    else
      && o1.v.I? && o2.v.I? && IsInt64(o1.v.n) && IsInt64(S.RangeEnd(o2.v.n, inclusive))
      && At(d, r.0) && Holds(d, r.1, ToWord(o1.v.n)) && Holds(d, r.2, ToWord(S.RangeEnd(o2.v.n, inclusive)))
      && SameRegs(c, d, k) && MemOk(s, d.mem)
  }

  lemma BoundsRuns(code: seq<Block>, lo: S.Expr, hi: S.Expr, inclusive: bool, env: S.Env, s: S.Store, g: Gen, c: Config) returns (n: nat, d: Config)
    requires Starts(lo, env, S.IntT, s, g, c) && S.HasType(hi, env, S.IntT) && Ext(code, LowerBounds(lo, hi, inclusive, g).0.blocks)
    ensures d == Run(code, c, n)
    ensures Bounded(S.Eval(lo, s, g.checks), S.Eval(hi, s, g.checks), inclusive, s, c, g.regs, LowerBounds(lo, hi, inclusive, g), d)
  {
    hide LowerExpr, StorePair, Ext, SameRegs, MemOk, Run, S.Fits, S.HasType, S.Eval, ToWord, IsInt64;
    BoundsCode(code, lo, hi, inclusive, g);
    var (g1, low) := LowerExpr(lo, g);
    var (g2, high) := LowerExpr(hi, g1);
    n, d := ExprRuns(code, lo, env, S.IntT, s, g, c);
    var o1 := S.Eval(lo, s, g.checks);
    if o1.Val? {
      var c1, m := d, 0;
      m, d := ExprRuns(code, hi, env, S.IntT, s, g1, c1);
      var o2 := S.Eval(hi, s, g.checks);
      Then(code, c, n, c1, m, d);
      n := n + m;
      if o2.Val? {
        var c2 := d;
        GoesOn(code, c, n - m, c1, g.regs, m, c2, g1.regs);
        HoldsLater(c1, c2, g1, low.op, Encode(o1.v));
        m, d := PairRuns(code, g2, low.op, high.op, inclusive, s, o1.v.n, o2.v.n, c2);
        GoesOn(code, c, n, c2, g.regs, m, d, g2.regs);
        n := n + m;
      }
    }
  }

  /** Declare the loop variable and jump to the test. */
  lemma EnterRangeRuns(code: seq<Block>, g: Gen, x: nat, low: Operand, t: LoopTarget, s: S.Store, a: int, c: Config) returns (d: Config)
    requires Ready(g) && At(c, g) && MemOk(s, c.mem) && Ext(code, EnterRange(g, Slot(x, 64), low, t).blocks)
    requires Holds(c, low, ToWord(a))
    ensures d == Run(code, c, 3) && AtBlock(d, |g.blocks|) && d.regs == c.regs && MemOk(s[x := S.I(a)], d.mem)
  {
    hide ToWord, Run;
    var n := |g.blocks|;
    var g1 := Push(NewBlocks(g, 4), t);
    var ins := [Alloca(Slot(x, 64), 1), Store(low, Slot(x, 64), Imm(0), 64)];
    var g2 := EmitAll(g1, ins, 0);
    assert g2.blocks[g.cur] == g.blocks[g.cur] + ins;
    Descend(code, g2, Br(n));
    PieceStep(code, g1, ins, 0, c, c, 0);
    var c1 := Run(code, c, 1);
    PieceStep(code, g1, ins, 0, c, c1, 1);
    var c2 := Run(code, c1, 1);
    Then(code, c, 1, c1, 1, c2);
    d := BrRuns(code, g2, n, c2);
    Then(code, c, 2, c2, 1, d);
    assert d.mem[Slot(x, 64)] == [ToWord(a)] == Cells(S.I(a));
  }

  lemma RangeTestRuns(code: seq<Block>, g: Gen, s: S.Store, x: nat, high: Operand, e: int, body: BlockId, end: BlockId, c: Config) returns (d: Config)
    requires At(c, g) && MemOk(s, c.mem) && Ext(code, RangeTest(g, Slot(x, 64), high, body, end).blocks)
    requires Known(g, high) && Holds(c, high, ToWord(e)) && IsInt64(e) && x in s && s[x].I? && IsInt64(s[x].n)
    ensures d == Run(code, c, 3) && AtBlock(d, if s[x].n < e then body else end) && SameRegs(c, d, g.regs) && d.mem == c.mem
  {
    hide ToWord, Run, Compare, Ext;
    var r := g.regs;
    var ins := [Load(r, Slot(x, 64), Imm(0)), ICmp(r + 1, Slt, Reg(r), high, 64)];
    var h := EmitAll(g, ins, 2);
    assert h.blocks[g.cur] == g.blocks[g.cur] + ins;
    RelAgrees(S.LtOp, s[x].n, e);
    Descend(code, h, CondBr(Reg(r + 1), body, end));
    PieceStep(code, g, ins, 2, c, c, 0);
    var c1 := Run(code, c, 1);
    PieceStep(code, g, ins, 2, c, c1, 1);
    var c2 := Run(code, c1, 1);
    StepEmitted(code, h, CondBr(Reg(r + 1), body, end), c2);
    d := Run(code, c2, 1);
    Then(code, c, 1, c1, 1, c2);
    Then(code, c, 2, c2, 1, d);
  }

  lemma RangeStepRuns(code: seq<Block>, g: Gen, s: S.Store, x: nat, cond: BlockId, c: Config) returns (d: Config)
    requires At(c, g) && MemOk(s, c.mem) && Ext(code, RangeStep(g, Slot(x, 64), cond).blocks) && x in s && s[x].I? && IsInt64(s[x].n)
    ensures d == Run(code, c, 4) && AtBlock(d, cond) && SameRegs(c, d, g.regs) && MemOk(s[x := S.I(Wrap(s[x].n + 1))], d.mem)
    ensures IsInt64(Wrap(s[x].n + 1))
  {
    hide ToWord, Run, BinWord, Wrap, Ext;
    var r, v := g.regs, Wrap(s[x].n + 1);
    var ins := [Load(r, Slot(x, 64), Imm(0)), Binary(r + 1, Add, Reg(r), Imm(1)), Store(Reg(r + 1), Slot(x, 64), Imm(0), 64)];
    var h := EmitAll(g, ins, 2);
    assert h.blocks[g.cur] == g.blocks[g.cur] + ins;
    WordPlusOne(s[x].n);
    Descend(code, h, Br(cond));
    PieceStep(code, g, ins, 2, c, c, 0);
    var c1 := Run(code, c, 1);
    PieceStep(code, g, ins, 2, c, c1, 1);
    var c2 := Run(code, c1, 1);
    PieceStep(code, g, ins, 2, c, c2, 2);
    var c3 := Run(code, c2, 1);
    d := BrRuns(code, h, cond, c3);
    Then(code, c, 1, c1, 1, c2);
    Then(code, c, 2, c2, 1, c3);
    Then(code, c, 3, c3, 1, d);
    assert d.mem[Slot(x, 64)] == [ToWord(v)] == Cells(S.I(v));
  }

  /** The stages of a range loop: the bounds, the head, the body, and the increment block. */
  ghost predicate RangeStages(st: S.Stmt, g: Gen, g1: Gen, low: Operand, high: Operand, f: Gen, h: Gen, k: Gen) {
    && st.ForRange? && Ok(g) && (g1, low, high) == LowerBounds(st.lo, st.hi, st.inclusive, g)
    && f == RangeHead(g1, Slot(st.x, 64), low, high) && h == LowerAll(st.body, f) && |g1.blocks| + 3 < |h.blocks|
    && k == Move(Leave(h, |g1.blocks| + 2), |g1.blocks| + 2)
  }

  function RangeTarget(g1: Gen): LoopTarget { LoopTarget(To(|g1.blocks| + 2), |g1.blocks| + 3) }

  lemma RangeFacts(code: seq<Block>, st: S.Stmt, g: Gen, env: S.Env, ctx: S.Ctx) returns (g1: Gen, low: Operand, high: Operand, f: Gen, h: Gen, k: Gen)
    requires st.ForRange? && S.Legal(st, env, ctx) && Ready(g) && TargetsOk(g, ctx) && Ext(code, LowerForRange(st, g).blocks)
    ensures RangeStages(st, g, g1, low, high, f, h, k) && g.regs <= g1.regs && Known(g1, high) && Ready(g1)
    ensures BodyReady(g, ctx, f, RangeTarget(g1)) && HasTargets(f, BodyCtx(ctx, true, ctx.canFall)) && f.cur == |g1.blocks| + 1 && g1.regs <= f.regs
    ensures k.blocks[k.cur] == [] && f.regs <= k.regs && LowerForRange(st, g) == Move(Pop(RangeStep(k, Slot(st.x, 64), |g1.blocks|)), |g1.blocks| + 3)
    ensures var last := LowerForRange(st, g); Ok(last) && last.blocks[last.cur] == [] && last.cur == |g1.blocks| + 3
    ensures Ext(code, RangeStep(k, Slot(st.x, 64), |g1.blocks|).blocks) && Ext(code, Leave(h, |g1.blocks| + 2).blocks)
    ensures Ext(code, h.blocks) && Ext(code, f.blocks)
  {
    hide LowerBounds, LowerAll, TidyOpen, Tidy, TargetsOk, HasTargets, Ready, RangeHead, Ext, S.LegalAll, S.HasType, Outer, Leave, Pop, RangeStep;
    ReadyOk(g);
    TargetsHave(g, ctx);
    DepthSmall(g, ctx);
    g1, low, high := LowerBounds(st.lo, st.hi, st.inclusive, g).0, LowerBounds(st.lo, st.hi, st.inclusive, g).1, LowerBounds(st.lo, st.hi, st.inclusive, g).2;
    var n, outer := |g1.blocks|, Outer(g, ctx);
    f := RangeHead(g1, Slot(st.x, 64), low, high);
    h := LowerAll(st.body, f);
    k := Move(Leave(h, n + 2), n + 2);
    RangeStart(st, g, ctx, g1, low, high, f);
    TidyIs(g, f, {n + 2, n + 3}, outer);
    PendingFresh(g, f, {n + 2, n + 3}, outer, n + 2);
    var env' := env[st.x := S.Scalar(S.IntT)];
    BodyTargets(g, ctx, f, RangeTarget(g1), {n + 2, n + 3}, true, f.fall, ctx.canFall);
    TargetsHave(f, BodyCtx(ctx, true, ctx.canFall));
    BodyTidy(g, ctx, f, RangeTarget(g1), {n + 2, n + 3}, st.body, env', true, f.fall, ctx.canFall);
    PendingFresh(g, h, {n + 2, n + 3}, outer, n + 2);
    PendingFresh(g, h, {n + 2, n + 3}, outer, n + 3);
    LeaveElsewhere(h, n + 2, n + 2);
    LeaveElsewhere(h, n + 2, n + 3);
    RangeEnds(code, st, k, n);
    PopBlocks(RangeStep(k, Slot(st.x, 64), n));
    DownLeave(code, h, n + 2);
    DownAppends(code, f, h);
  }

  lemma RangeStart(st: S.Stmt, g: Gen, ctx: S.Ctx, g1: Gen, low: Operand, high: Operand, f: Gen)
    requires Ready(g) && TargetsOk(g, ctx) && |g.loops| < MAX_LOOP_DEPTH && st.ForRange?
    requires Ok(g) && (g1, low, high) == LowerBounds(st.lo, st.hi, st.inclusive, g) && f == RangeHead(g1, Slot(st.x, 64), low, high)
    ensures var n := |g1.blocks|;
      && Ready(g1) && TidyOpen(g, f, {n + 2, n + 3}, Outer(g, ctx)) && f.loops == g.loops + [RangeTarget(g1)] && f.fall == g.fall
      && f.blocks[f.cur] == [] && f.cur == n + 1 && f.checks == g.checks && g.regs <= g1.regs <= f.regs && |g.blocks| <= n
  {
    hide LowerBounds, TidyOpen, Ready, RangeHead, TargetsOk, HasTargets;
    TargetsHave(g, ctx);
    BoundsTidy(st.lo, st.hi, st.inclusive, g);
    RangeHeadTidy(g1, Slot(st.x, 64), low, high, RangeTarget(g1));
    OuterSmall(g, ctx);
    TidyAfter(g, g1, f, {|g1.blocks| + 2, |g1.blocks| + 3}, Outer(g, ctx));
  }

  /** The increment does not touch the end block. */
  lemma RangeEnds(code: seq<Block>, st: S.Stmt, k: Gen, n: BlockId)
    requires st.ForRange? && Ok(k) && k.cur == n + 2 && n + 3 < |k.blocks| && k.blocks[n + 3] == []
    requires Ext(code, RangeStep(k, Slot(st.x, 64), n).blocks)
    ensures RangeStep(k, Slot(st.x, 64), n).blocks[n + 3] == [] && Ext(code, k.blocks)
  {
    var r, x := k.regs, Slot(st.x, 64);
    var ins := [Load(r, x, Imm(0)), Binary(r + 1, Add, Reg(r), Imm(1)), Store(Reg(r + 1), x, Imm(0), 64)];
    Descend(code, EmitAll(k, ins, 2), Br(n));
    DownAll(code, k, ins, 2);
  }

  ghost predicate RangeBegins(st: S.Stmt, env: S.Env, ctx: S.Ctx, s: S.Store, g: Gen) {
    st.ForRange? && S.Legal(st, env, ctx) && Ready(g) && TargetsOk(g, ctx) && S.Fits(s, InRange(st, env))
  }

  /** The scope of a range loop's body. */
  function InRange(st: S.Stmt, env: S.Env): S.Env
    requires st.ForRange?
  {
    env[st.x := S.Scalar(S.IntT)]
  }

  lemma InRangeSub(st: S.Stmt, env: S.Env, ctx: S.Ctx)
    requires st.ForRange? && S.Legal(st, env, ctx)
    ensures SubEnv(env, InRange(st, env)) && st.x !in env
  {
  }

  lemma LoopVar(st: S.Stmt, env: S.Env, s: S.Store)
    requires st.ForRange? && S.Fits(s, InRange(st, env))
    ensures st.x in s && s[st.x].I? && IsInt64(s[st.x].n)
  {
    assert S.ValueFits(s[st.x], InRange(st, env)[st.x]);
  }

  /** The test at the head of a range loop is in the code. */
  lemma RangeTestCode(code: seq<Block>, g: Gen, x: Region, low: Operand, high: Operand)
    requires Ready(g) && Ext(code, RangeHead(g, x, low, high).blocks)
    ensures Ok(g)
    ensures var n := |g.blocks|;
      var e := EnterRange(g, x, low, LoopTarget(To(n + 2), n + 3));
      && e.cur == n && e.blocks[n] == [] && g.regs <= e.regs && Ext(code, e.blocks) && Ext(code, RangeTest(e, x, high, n + 1, n + 3).blocks)
  {
    hide Tidy, Ext;
    var n := |g.blocks|;
    var t := LoopTarget(To(n + 2), n + 3);
    EnterRangeTidy(g, x, low, t);
    var e := EnterRange(g, x, low, t);
    var r := e.regs;
    var ins := [Load(r, x, Imm(0)), ICmp(r + 1, Slt, Reg(r), high, 64)];
    Descend(code, EmitAll(e, ins, 2), CondBr(Reg(r + 1), n + 1, n + 3));
    DownAll(code, e, ins, 2);
  }

  /** From the test on: the loop runs as the source counts. */
  lemma {:induction false} CountRuns(code: seq<Block>, st: S.Stmt, env: S.Env, ctx: S.Ctx, s: S.Store, g: Gen, c: Config, fuel: nat,
                                     g1: Gen, low: Operand, high: Operand, e: int) returns (n: nat, d: Config)
    requires RangeBegins(st, env, ctx, s, g) && Ok(g) && (g1, low, high) == LowerBounds(st.lo, st.hi, st.inclusive, g)
    requires AtBlock(c, |g1.blocks|) && MemOk(s, c.mem) && Ext(code, LowerForRange(st, g).blocks) && Holds(c, high, ToWord(e)) && IsInt64(e)
    ensures d == Run(code, c, n) && HasTargets(g, ctx)
    ensures Reached(S.Count(st.x, e, st.body, s, g.checks, fuel), env, env, PlacesOf(g, ctx), c, g1.regs, LowerForRange(st, g), d)
    ensures S.Count(st.x, e, st.body, s, g.checks, fuel).OutOfFuel? ==> n >= fuel
    decreases fuel, st, 1
  {
    hide LowerBounds, LowerAll, LowerForRange, RangeTest, TidyOpen, Tidy, TargetsOk, HasTargets, Ready, Ext, S.Legal, S.HasType, Leave, Pop, Reached, BodyReady, S.Fits, MemOk, SameRegs, Run, RangeHead, EnterRange, S.ExecAll, S.Eval, ToWord, RangeStep;
    TargetsHave(g, ctx);
    var p, last := PlacesOf(g, ctx), LowerForRange(st, g);
    var g1', low', high', f, h, k := RangeFacts(code, st, g, env, ctx);
    LoopVar(st, env, s);
    InRangeSub(st, env, ctx);
    if fuel == 0 {
      n, d := 0, Run(code, c, 0);
      RunNone(code, c);
      NoFuel(env, p, c, g1.regs, last, d);
    } else {
      var n0 := |g1.blocks|;
      RangeTestCode(code, g1, Slot(st.x, 64), low, high);
      var en := EnterRange(g1, Slot(st.x, 64), low, RangeTarget(g1));
      d := RangeTestRuns(code, en, s, st.x, high, e, n0 + 1, n0 + 3, c);
      n := 3;
      FewerRegs(c, d, g1.regs, en.regs);
      if s[st.x].n >= e {
        FitsSub(s, env, InRange(st, env));
        NormalAt(S.Normal(s), env, p, c, g1.regs, last, d);
      } else {
        var c1, m := d, 0;
        HoldsLater(c, c1, g1, high, ToWord(e));
        assert Goes(code, c, 3, c1, g1.regs);
        m, d := RangeRoundRuns(code, st, env, ctx, s, g, c1, fuel, g1, low, high, e);
        After(code, c, 3, c1, g1.regs, S.Count(st.x, e, st.body, s, g.checks, fuel), env, env, p, m, g1.regs, last, d);
        n := n + m;
      }
    }
  }

  /** From the end of a body that goes on: the increment, back to the test. */
  lemma RangeNextRuns(code: seq<Block>, st: S.Stmt, env: S.Env, ctx: S.Ctx, g: Gen, g1: Gen, f: Gen, h: Gen, k: Gen, fl: S.Flow,
                      c: Config, n: nat, c1: Config, high: Operand, e: int) returns (m: nat, d: Config)
    requires st.ForRange? && BodyReady(g, ctx, f, RangeTarget(g1)) && HasTargets(f, BodyCtx(ctx, true, ctx.canFall))
    requires SubEnv(InRange(st, env), EnvAll(st.body, InRange(st, env))) && c1 == Run(code, c, n) && (fl.Normal? || fl.Continued?)
    requires Reached(fl, InRange(st, env), EnvAll(st.body, InRange(st, env)), PlacesOf(f, BodyCtx(ctx, true, ctx.canFall)), c, f.regs, h, c1)
    requires Ok(h) && Ext(code, Leave(h, |g1.blocks| + 2).blocks) && Ok(k) && k.cur == |g1.blocks| + 2 && k.blocks[k.cur] == []
    requires g1.regs <= f.regs <= k.regs && Ext(code, RangeStep(k, Slot(st.x, 64), |g1.blocks|).blocks)
    requires Known(g1, high) && Holds(c, high, ToWord(e))
    ensures Goes(code, c, m, d, g1.regs) && AtBlock(d, |g1.blocks|) && Holds(d, high, ToWord(e)) && st.x in fl.s && fl.s[st.x].I?
    ensures var s' := fl.s[st.x := S.I(Wrap(fl.s[st.x].n + 1))]; MemOk(s', d.mem) && S.Fits(s', InRange(st, env))
  {
    hide HasTargets, BodyReady, Ext, Leave, Reached, S.Fits, MemOk, SameRegs, Run, ToWord, RangeStep, Wrap, SubEnv, PlacesOf;
    var env' := InRange(st, env);
    var j, c2 := BodyEnds(code, g, ctx, f, RangeTarget(g1), fl, env', EnvAll(st.body, env'), c, h, c1);
    Then(code, c, n, c1, j, c2);
    KeptGoes(code, fl.s, env', c, n + j, f.regs, c2, g1.regs);
    LoopVar(st, env, fl.s);
    d := RangeStepRuns(code, k, fl.s, st.x, |g1.blocks|, c2);
    FewerRegs(c2, d, g1.regs, k.regs);
    GoesOn(code, c, n + j, c2, g1.regs, 4, d, g1.regs);
    m := n + j + 4;
    HoldsLater(c, d, g1, high, ToWord(e));
    FitsUpdate(fl.s, env', st.x, S.Scalar(S.IntT), S.I(Wrap(fl.s[st.x].n + 1)));
  }

  /** The body of a range loop once, the increment, and the rest of the loop. */
  lemma {:induction false} RangeRoundRuns(code: seq<Block>, st: S.Stmt, env: S.Env, ctx: S.Ctx, s: S.Store, g: Gen, c: Config, fuel: nat,
                                          g1: Gen, low: Operand, high: Operand, e: int) returns (n: nat, d: Config)
    requires RangeBegins(st, env, ctx, s, g) && Ok(g) && (g1, low, high) == LowerBounds(st.lo, st.hi, st.inclusive, g)
    requires AtBlock(c, |g1.blocks| + 1) && MemOk(s, c.mem) && Ext(code, LowerForRange(st, g).blocks) && Holds(c, high, ToWord(e)) && IsInt64(e)
    requires fuel > 0 && st.x in s && s[st.x].I? && s[st.x].n < e
    ensures d == Run(code, c, n) && HasTargets(g, ctx)
    ensures Reached(S.Count(st.x, e, st.body, s, g.checks, fuel), env, env, PlacesOf(g, ctx), c, g1.regs, LowerForRange(st, g), d)
    ensures S.Count(st.x, e, st.body, s, g.checks, fuel).OutOfFuel? ==> n + 1 >= fuel
    decreases fuel, st, 0
  {
    hide LowerBounds, LowerAll, LowerForRange, RangeTest, TidyOpen, Tidy, TargetsOk, HasTargets, Ready, Ext, S.HasType, Leave, Pop, Reached, S.Fits, MemOk, SameRegs, Run, RangeHead, EnterRange, S.ExecAll, S.Eval, ToWord, RangeStep, Wrap, Appends;
    TargetsHave(g, ctx);
    var p, last, env' := PlacesOf(g, ctx), LowerForRange(st, g), InRange(st, env);
    var g1', low', high', f, h, k := RangeFacts(code, st, g, env, ctx);
    var n0, ctx' := |g1.blocks|, BodyCtx(ctx, true, ctx.canFall);
    InRangeSub(st, env, ctx);
    n, d := AllRuns(code, st.body, env', ctx', s, f, c, fuel - 1);
    var fl := S.ExecAll(st.body, s, g.checks, fuel - 1);
    SubEnvAll(st.body, env', ctx');
    if fl.Normal? || fl.Continued? {
      var c3, m;
      n, c3 := RangeNextRuns(code, st, env, ctx, g, g1, f, h, k, fl, c, n, d, high, e);
      var s' := fl.s[st.x := S.I(Wrap(fl.s[st.x].n + 1))];
      m, d := CountRuns(code, st, env, ctx, s', g, c3, fuel - 1, g1, low, high, e);
      After(code, c, n, c3, g1.regs, S.Count(st.x, e, st.body, s', g.checks, fuel - 1), env, env, p, m, g1.regs, last, d);
      n := n + m;
    } else {
      BodyLeft(g, ctx, f, RangeTarget(g1), fl, env, env', EnvAll(st.body, env'), c, f.regs, h, d, last);
      FewerKept(LeavesLoop(fl), env, p, c, f.regs, g1.regs, last, d);
    }
  }

  lemma {:induction false} ForRangeRuns(code: seq<Block>, st: S.Stmt, env: S.Env, ctx: S.Ctx, s: S.Store, g: Gen, c: Config, fuel: nat)
    returns (n: nat, d: Config)
    requires st.ForRange? && Begins(st, env, ctx, s, g, c) && Ext(code, LowerForRange(st, g).blocks)
    ensures d == Run(code, c, n) && HasTargets(g, ctx)
    ensures Reached(S.Exec(st, s, g.checks, fuel), env, env, PlacesOf(g, ctx), c, g.regs, LowerForRange(st, g), d)
    ensures S.Exec(st, s, g.checks, fuel).OutOfFuel? ==> n >= fuel
    decreases fuel, st, 2
  {
    hide LowerBounds, LowerAll, LowerForRange, RangeTest, TidyOpen, Tidy, TargetsOk, HasTargets, Ready, Ext, S.HasType, Leave, Pop, Reached, BodyReady, S.Fits, MemOk, SameRegs, Run, RangeHead, EnterRange, S.Count, S.Eval, ToWord, RangeStep, S.RangeEnd, S.LegalAll;
    TargetsHave(g, ctx);
    var p, last := PlacesOf(g, ctx), LowerForRange(st, g);
    var g1, low, high, f, h, k := RangeFacts(code, st, g, env, ctx);
    InRangeSub(st, env, ctx);
    RangeTestCode(code, g1, Slot(st.x, 64), low, high);
    RangeDown(code, st, g, g1, low, high);
    n, d := BoundsRuns(code, st.lo, st.hi, st.inclusive, env, s, g, c);
    var o1, o2 := S.Eval(st.lo, s, g.checks), S.Eval(st.hi, s, g.checks);
    if !o1.Val? {
      Failed(o1, env, p, c, g.regs, last, d);
    } else if !o2.Val? {
      Failed(o2, env, p, c, g.regs, last, d);
    } else {
      var c1, e := d, S.RangeEnd(o2.v.n, st.inclusive);
      var c2 := EnterRangeRuns(code, g1, st.x, low, RangeTarget(g1), s, o1.v.n, c1);
      SameRegsFork(c1, c2, g1.regs);
      GoesOn(code, c, n, c1, g.regs, 3, c2, g1.regs);
      HoldsLater(c1, c2, g1, high, ToWord(e));
      FitsUpdate(s, env, st.x, S.Scalar(S.IntT), o1.v);
      var m;
      m, d := CountRuns(code, st, env, ctx, s[st.x := o1.v], g, c2, fuel, g1, low, high, e);
      After(code, c, n + 3, c2, g.regs, S.Count(st.x, e, st.body, s[st.x := o1.v], g.checks, fuel), env, env, p, m, g1.regs, last, d);
      n := n + 3 + m;
    }
  }

  /** The bounds are in the code. */
  lemma RangeDown(code: seq<Block>, st: S.Stmt, g: Gen, g1: Gen, low: Operand, high: Operand)
    requires st.ForRange? && Ok(g) && (g1, low, high) == LowerBounds(st.lo, st.hi, st.inclusive, g) && Ready(g1)
    requires Ext(code, EnterRange(g1, Slot(st.x, 64), low, RangeTarget(g1)).blocks)
    ensures Ext(code, g1.blocks)
  {
    hide LowerBounds, Tidy;
    EnterRangeTidy(g1, Slot(st.x, 64), low, RangeTarget(g1));
    DownAppends(code, g1, EnterRange(g1, Slot(st.x, 64), low, RangeTarget(g1))) by { TidyIs(g1, EnterRange(g1, Slot(st.x, 64), low, RangeTarget(g1)), Ids(|g1.blocks| + 1, 3), {}); }
  }

  // ---- switch ----

  /** A comparison's parts are in the code. */
  lemma CaseTestCode(code: seq<Block>, value: S.Expr, rest: S.Cases, b: BlockId, end: BlockId, v: Typed, g: Gen)
    requires Ok(g) && end < |g.blocks| && b + 1 + CountClauses(rest) <= |g.blocks| && Ext(code, CaseTest(value, rest, b, end, v, g).0.blocks)
    ensures var (g1, w) := LowerExpr(value, g);
      var (g2, miss) := if rest.Case? then (NewBlocks(g1, 1), |g1.blocks|) else (g1, BodyBlock(rest, b + 1, end));
      var i := ICmp(g2.regs, Eq, v.op, w.op, v.width);
      var g3 := Define(g2, i).0;
      && Ext(code, g.blocks) && Ext(code, g1.blocks) && Ext(code, Emit(g2, i).blocks) && Ext(code, Emit(g3, CondBr(Reg(g2.regs), b, miss)).blocks)
      && CaseTest(value, rest, b, end, v, g) == (Emit(g3, CondBr(Reg(g2.regs), b, miss)), miss)
  {
    hide LowerExpr, Ext, Grows;
    var (g1, w) := LowerExpr(value, g);
    var (g2, miss) := if rest.Case? then (NewBlocks(g1, 1), |g1.blocks|) else (g1, BodyBlock(rest, b + 1, end));
    var i := ICmp(g2.regs, Eq, v.op, w.op, v.width);
    Descend(code, Define(g2, i).0, CondBr(Reg(g2.regs), b, miss));
    Descend(code, g2, i);
    MoreBlocksDown(code, g1, g2);
    ExprGrows(value, g);
    ExtDown(code, g, g1);
  }

  lemma MoreBlocksDown(code: seq<Block>, g: Gen, h: Gen)
    requires Ext(code, h.blocks) && (h.blocks == g.blocks || h.blocks == NewBlocks(g, 1).blocks)
    ensures Ext(code, g.blocks)
  {
    forall b | 0 <= b < |g.blocks| ensures g.blocks[b] <= code[b] {
      assert h.blocks[b] == g.blocks[b];
    }
  }

  lemma EncodeInjective(x: S.Value, y: S.Value, ty: S.Ty)
    requires S.ValueFits(x, S.Scalar(ty)) && S.ValueFits(y, S.Scalar(ty))
    ensures Encode(x) == Encode(y) <==> x == y
  {
    if ty == S.IntT {
      ToIntToWord(x.n);
      ToIntToWord(y.n);
    }
  }

  lemma CaseTestRuns(code: seq<Block>, value: S.Expr, rest: S.Cases, b: BlockId, end: BlockId, v: Typed, env: S.Env, ty: S.Ty, s: S.Store, g: Gen, x: S.Value, c: Config)
    returns (n: nat, d: Config)
    requires Starts(value, env, ty, s, g, c) && Known(g, v.op) && Holds(c, v.op, Encode(x)) && S.ValueFits(x, S.Scalar(ty))
    requires end < |g.blocks| && b + 1 + CountClauses(rest) <= |g.blocks| && Ext(code, CaseTest(value, rest, b, end, v, g).0.blocks)
    ensures d == Run(code, c, n)
    ensures match S.Eval(value, s, g.checks)
      case Val(y) => AtBlock(d, if y == x then b else CaseTest(value, rest, b, end, v, g).1) && SameRegs(c, d, g.regs) && MemOk(s, d.mem)
      case OutOfBounds => d == Trapped
      case Undefined => d == Stuck
  {
    hide LowerExpr, Ext, Grows, S.HasType, S.Eval, S.Fits, SameRegs, MemOk, Run, ToWord;
    CaseTestCode(code, value, rest, b, end, v, g);
    var (g1, w) := LowerExpr(value, g);
    var (g2, miss) := if rest.Case? then (NewBlocks(g1, 1), |g1.blocks|) else (g1, BodyBlock(rest, b + 1, end));
    var i := ICmp(g2.regs, Eq, v.op, w.op, v.width);
    n, d := ExprRuns(code, value, env, ty, s, g, c);
    var o := S.Eval(value, s, g.checks);
    if o.Val? {
      var c1 := d;
      EncodeInjective(x, o.v, ty);
      HoldsLater(c, c1, g, v.op, Encode(x));
      var c2 := DefineRuns(code, g2, i, c1, Flag(Encode(x) == Encode(o.v)));
      GoesOn(code, c, n, c1, g.regs, 1, c2, g2.regs);
      StepEmitted(code, Define(g2, i).0, CondBr(Reg(g2.regs), b, miss), c2);
      d := Run(code, c2, 1);
      SameRegsFork(c2, d, g2.regs);
      GoesOn(code, c, n + 1, c2, g.regs, 1, d, g2.regs);
      n := n + 2;
    }
  }

  function ClauseCtx(ctx: S.Ctx): S.Ctx { S.Ctx(true, false, true, ctx.depth + 1) }

  function DefaultCtx(ctx: S.Ctx): S.Ctx { S.Ctx(true, false, false, ctx.depth + 1) }

  ghost predicate CasesReady(g: Gen, ctx: S.Ctx, f: Gen, t: LoopTarget, cases: S.Cases, b: BlockId, end: BlockId, env: S.Env, ty: S.Ty, rep: nat) {
    && TargetsOk(g, ctx) && ctx.depth < S.MAX_NESTING && S.LegalCases(cases, env, ctx.depth + 1, ty, rep)
    && ClauseState(g, ctx, f, t, cases, b, end) && g.regs <= f.regs && f.checks == g.checks
  }

  /** What is known where a clause's body starts (f1), where it ends (h), and where the next comparison is made (f2). */
  ghost predicate ClauseStages(g: Gen, ctx: S.Ctx, f: Gen, t: LoopTarget, cases: S.Cases, b: BlockId, end: BlockId, v: Typed, env: S.Env, ty: S.Ty, rep: nat,
                               f1: Gen, h: Gen, f2: Gen) {
    && cases.Case? && Ok(f) && end < |f.blocks| && b + CountClauses(cases) <= |f.blocks|
    && f1 == ClauseStart(cases, b, end, v, f).0 && h == LowerAll(cases.body, f1) && f2 == LowerClause(cases, b, end, v, f)
    && f2.blocks == Leave(h, end).blocks && f2.cur == ClauseStart(cases, b, end, v, f).1 && f2.blocks[f2.cur] == []
    && Ready(f1) && TargetsOk(f1, ClauseCtx(ctx)) && HasTargets(f1, ClauseCtx(ctx)) && f1.blocks[b] == [] && f1.cur == b && Appends(f1, h)
    && PlacesOf(f1, ClauseCtx(ctx)) == Places(To(end), NoTarget, To(BodyBlock(cases.rest, b + 1, end)))
    && f.regs <= f1.regs <= f2.regs && f1.checks == g.checks && CasesReady(g, ctx, f2, t, cases.rest, b + 1, end, env, ty, rep)
  }

  lemma ClauseFacts(g: Gen, ctx: S.Ctx, f: Gen, t: LoopTarget, cases: S.Cases, b: BlockId, end: BlockId, v: Typed, env: S.Env, ty: S.Ty, rep: nat)
    returns (f1: Gen, h: Gen, f2: Gen)
    requires CasesReady(g, ctx, f, t, cases, b, end, env, ty, rep) && cases.Case?
    ensures ClauseStages(g, ctx, f, t, cases, b, end, v, env, ty, rep, f1, h, f2)
  {
    hide LowerAll, TidyOpen, Tidy, TargetsOk, HasTargets, Ready, ClauseBlocks, Outer, S.LegalAll, ClauseStart, ClauseState, S.HasType, S.Rep;
    TargetsHave(g, ctx);
    ClauseIs(g, ctx, f, t, cases, b, end);
    ClauseStartTidy(g, ctx, f, t, cases, b, end, v);
    var miss := ClauseStart(cases, b, end, v, f).1;
    f1 := ClauseStart(cases, b, end, v, f).0;
    h := LowerAll(cases.body, f1);
    f2 := LowerClause(cases, b, end, v, f);
    ClauseTidy(g, ctx, f1, t, cases, b, end, miss, env, ty, rep);
    ClauseBody(g, ctx, f1, t, cases, b, end, miss, env, ty, rep);
    ClauseStartEmpty(g, ctx, f, t, cases, b, end, v);
  }

  /** The body's own view of a clause. */
  lemma ClauseBody(g: Gen, ctx: S.Ctx, f1: Gen, t: LoopTarget, cases: S.Cases, b: BlockId, end: BlockId, miss: BlockId, env: S.Env, ty: S.Ty, rep: nat)
    requires TargetsOk(g, ctx) && ctx.depth < S.MAX_NESTING && cases.Case? && S.LegalCases(cases, env, ctx.depth + 1, ty, rep)
    requires end < b && b + CountClauses(cases) <= |f1.blocks| && t == LoopTarget(NoTarget, end)
    requires TidyOpen(g, f1, ClauseBlocks(cases, b, end) - {b} + (if cases.rest.Case? then {miss} else {}), Outer(g, ctx))
    requires f1.loops == g.loops + [t] && f1.fall == To(BodyBlock(cases.rest, b + 1, end))
    requires if cases.rest.Case? then miss >= b + CountClauses(cases) else miss == BodyBlock(cases.rest, b + 1, end)
    ensures Ready(f1) && TargetsOk(f1, ClauseCtx(ctx)) && HasTargets(f1, ClauseCtx(ctx)) && Ok(f1)
    ensures PlacesOf(f1, ClauseCtx(ctx)) == Places(To(end), NoTarget, To(BodyBlock(cases.rest, b + 1, end)))
    ensures var h := LowerAll(cases.body, f1);
      Appends(f1, h) && miss < |h.blocks| && h.blocks[miss] == [] && h.cur != miss && Leave(h, end).blocks[miss] == []
  {
    hide LowerAll, TidyOpen, Tidy, Open, Closed, NoPhi, TargetsOk, HasTargets, Outer, ClauseBlocks, Leave, S.LegalAll, S.HasSwitchAll, Ready;
    TargetsHave(g, ctx);
    var rest, outer := cases.rest, Outer(g, ctx);
    var p := ClauseBlocks(cases, b, end) - {b} + if rest.Case? then {miss} else {};
    BlocksAfter(cases, b, end, b + CountClauses(cases));
    if rest.Case? { BlocksAfter(cases, b, end, miss); }
    TidyIs(g, f1, p, outer);
    BodyTargets(g, ctx, f1, t, p, false, f1.fall, true);
    BodyTidy(g, ctx, f1, t, p, cases.body, env, false, f1.fall, true);
    TargetsHave(f1, ClauseCtx(ctx));
    assert Top(f1) == t;
    var h := LowerAll(cases.body, f1);
    PendingFresh(g, h, p, outer, miss);
    LeaveElsewhere(h, end, miss);
  }

  /** The clause's body block is entered empty. */
  lemma ClauseStartEmpty(g: Gen, ctx: S.Ctx, f: Gen, t: LoopTarget, cases: S.Cases, b: BlockId, end: BlockId, v: Typed)
    requires HasTargets(g, ctx) && ClauseState(g, ctx, f, t, cases, b, end) && cases.Case?
    ensures var f1 := ClauseStart(cases, b, end, v, f).0; f1.blocks[b] == []
  {
    hide LowerExpr, Tidy, Outer, HasTargets;
    BlocksAfter(cases, b, end, b + CountClauses(cases));
    var p := ClauseBlocks(cases, b, end);
    PendingFresh(g, f, p, Outer(g, ctx), b);
    CaseTestGrows(cases.value, cases.rest, b, end, v, f);
  }

  lemma CaseTestGrows(value: S.Expr, rest: S.Cases, b: BlockId, end: BlockId, v: Typed, g: Gen)
    requires Ok(g) && end < |g.blocks| && b + 1 + CountClauses(rest) <= |g.blocks|
    ensures Grows(g, CaseTest(value, rest, b, end, v, g).0)
  {
    hide LowerExpr;
    ExprGrows(value, g);
  }

  /** Code that holds all clauses holds what was there before them. */
  lemma {:induction false} CasesDown(code: seq<Block>, g: Gen, ctx: S.Ctx, f: Gen, t: LoopTarget, cases: S.Cases, b: BlockId, end: BlockId, v: Typed,
                                     env: S.Env, ty: S.Ty, rep: nat)
    requires CasesReady(g, ctx, f, t, cases, b, end, env, ty, rep)
    requires Ok(f) && end < |f.blocks| && b + CountClauses(cases) <= |f.blocks| && Ext(code, LowerCases(cases, b, end, v, f).blocks)
    ensures Ext(code, f.blocks)
    decreases cases, 1
  {
    hide LowerAll, Ext, CasesReady, Appends, LowerClause;
    match cases
    case NoCase =>
    case Default(body) =>
      var h := DefaultFacts(g, ctx, f, t, cases, b, end, env, ty, rep);
      DownLeave(code, h, end);
      DownAppends(code, f, h);
    case Case(value, _, rest) => ClauseDown(code, g, ctx, f, t, cases, b, end, v, env, ty, rep);
  }

  lemma {:induction false} ClauseDown(code: seq<Block>, g: Gen, ctx: S.Ctx, f: Gen, t: LoopTarget, cases: S.Cases, b: BlockId, end: BlockId, v: Typed,
                                      env: S.Env, ty: S.Ty, rep: nat)
    requires CasesReady(g, ctx, f, t, cases, b, end, env, ty, rep) && cases.Case?
    requires Ok(f) && end < |f.blocks| && b + CountClauses(cases) <= |f.blocks| && Ext(code, LowerCases(cases, b, end, v, f).blocks)
    ensures Ext(code, f.blocks)
    decreases cases, 0
  {
    hide LowerAll, Ext, CasesReady, TargetsOk, HasTargets, Ready, Appends, LowerClause, Leave, CaseTest;
    var f1, h, f2 := ClauseFacts(g, ctx, f, t, cases, b, end, v, env, ty, rep);
    ReadyLimits(g, ctx, f2, t, cases.rest, b + 1, end, env, ty, rep);
    CasesDown(code, g, ctx, f2, t, cases.rest, b + 1, end, v, env, ty, rep);
    DownLeave(code, h, end);
    DownAppends(code, f1, h);
    CaseTestCode(code, cases.value, cases.rest, b, end, v, f);
  }

  lemma ReadyLimits(g: Gen, ctx: S.Ctx, f: Gen, t: LoopTarget, cases: S.Cases, b: BlockId, end: BlockId, env: S.Env, ty: S.Ty, rep: nat)
    requires CasesReady(g, ctx, f, t, cases, b, end, env, ty, rep)
    ensures Ok(f) && end < |f.blocks| && b + CountClauses(cases) <= |f.blocks| && TargetsOk(g, ctx) && HasTargets(g, ctx)
    ensures !cases.Case? ==> f.blocks[f.cur] == [] && f.cur == BodyBlock(cases, b, end)
    ensures f.checks == g.checks
  {
  }

  lemma DefaultFacts(g: Gen, ctx: S.Ctx, f: Gen, t: LoopTarget, cases: S.Cases, b: BlockId, end: BlockId, env: S.Env, ty: S.Ty, rep: nat) returns (h: Gen)
    requires CasesReady(g, ctx, f, t, cases, b, end, env, ty, rep) && cases.Default?
    ensures Ok(f) && f.cur == b && h == LowerAll(cases.body, f) && Appends(f, h)
    ensures Ready(f) && TargetsOk(f, DefaultCtx(ctx)) && HasTargets(f, DefaultCtx(ctx))
    ensures PlacesOf(f, DefaultCtx(ctx)) == Places(To(end), NoTarget, NoTarget)
    ensures S.LegalAll(cases.body, env, DefaultCtx(ctx))
  {
    hide LowerAll, TidyOpen, Tidy, TargetsOk, HasTargets, Ready, Outer, S.LegalAll, S.HasSwitchAll, Open, Closed;
    ReadyLimits(g, ctx, f, t, cases, b, end, env, ty, rep);
    TidyIs(g, f, {end}, Outer(g, ctx));
    BodyTargets(g, ctx, f, t, {end}, false, NoTarget, false);
    BodyTidy(g, ctx, f, t, {end}, cases.body, env, false, NoTarget, false);
    TargetsHave(f, DefaultCtx(ctx));
    assert Top(f) == t;
    h := LowerAll(cases.body, f);
  }

  /** A clause that neither fell through nor ended normally leaves the switch. */
  lemma ClauseLeft(fl: S.Flow, env: S.Env, after: S.Env, fall: Target, p: Places, c: Config, k: nat, h: Gen, d: Config, last: Gen, end: BlockId)
    requires Reached(fl, env, after, Places(To(end), NoTarget, fall), c, k, h, d) && !fl.Normal? && (fl.Fell? ==> fall == NoTarget)
    requires Ok(last) && last.cur == end && last.blocks[end] == []
    ensures Reached(S.AfterSwitch(fl), env, env, p, c, k, last, d)
  {
    hide MemOk, SameRegs, S.Fits;
  }

  /** A body's normal end: on to the end of the switch. */
  lemma ClauseEnds(code: seq<Block>, fl: S.Flow, env: S.Env, after: S.Env, q: Places, p: Places, c: Config, n: nat, k: nat, h: Gen, c1: Config, last: Gen, end: BlockId)
    returns (m: nat, d: Config)
    requires Reached(fl, env, after, q, c, k, h, c1) && fl.Normal? && SubEnv(env, after) && Run(code, c, n) == c1
    requires Ok(last) && last.cur == end && last.blocks[end] == [] && Ok(h) && Ext(code, Leave(h, end).blocks)
    ensures d == Run(code, c, m) && Reached(fl, env, env, p, c, k, last, d)
  {
    hide MemOk, SameRegs, S.Fits, Ext, Run, Reached, At, Open;
    NormalEnd(fl, env, after, q, c, k, h, c1);
    OpenNotTerminated(h.blocks[h.cur]);
    d := BrRuns(code, h, end, c1);
    SameRegsFork(c1, d, k);
    GoesOn(code, c, n, c1, k, 1, d, k);
    FitsSub(fl.s, env, after);
    NormalAt(fl, env, p, c, k, last, d);
    m := n + 1;
  }

  ghost predicate SwitchEnd(last: Gen, end: BlockId) {
    Ok(last) && last.cur == end && last.blocks[end] == []
  }

  lemma {:induction false} DefaultRuns(code: seq<Block>, cases: S.Cases, b: BlockId, end: BlockId, v: Typed, g: Gen, ctx: S.Ctx, f: Gen, t: LoopTarget,
                                       env: S.Env, ty: S.Ty, rep: nat, s: S.Store, c: Config, fuel: nat, last: Gen) returns (n: nat, d: Config)
    requires CasesReady(g, ctx, f, t, cases, b, end, env, ty, rep) && cases.Default? && SwitchEnd(last, end)
    requires Ok(f) && end < |f.blocks| && b + CountClauses(cases) <= |f.blocks| && Ext(code, LowerCases(cases, b, end, v, f).blocks)
    requires AtBlock(c, b) && S.Fits(s, env) && MemOk(s, c.mem)
    ensures d == Run(code, c, n) && HasTargets(g, ctx)
    ensures Reached(S.AfterSwitch(S.ExecAll(cases.body, s, g.checks, fuel)), env, env, PlacesOf(g, ctx), c, f.regs, last, d)
    ensures S.AfterSwitch(S.ExecAll(cases.body, s, g.checks, fuel)).OutOfFuel? ==> n >= fuel
    decreases fuel, cases, 0
  {
    hide LowerAll, TargetsOk, HasTargets, Ready, Ext, S.Fits, MemOk, S.ExecAll, Reached, Run, SameRegs, CasesReady, S.LegalAll;
    ReadyLimits(g, ctx, f, t, cases, b, end, env, ty, rep);
    var h := DefaultFacts(g, ctx, f, t, cases, b, end, env, ty, rep);
    DownLeave(code, h, end);
    n, d := AllRuns(code, cases.body, env, DefaultCtx(ctx), s, f, c, fuel);
    var fl := S.ExecAll(cases.body, s, g.checks, fuel);
    var after, p := EnvAll(cases.body, env), PlacesOf(g, ctx);
    SubEnvAll(cases.body, env, DefaultCtx(ctx));
    if fl.Normal? {
      n, d := ClauseEnds(code, fl, env, after, PlacesOf(f, DefaultCtx(ctx)), p, c, n, f.regs, h, d, last, end);
    } else {
      ClauseLeft(fl, env, after, NoTarget, p, c, f.regs, h, d, last, end);
    }
  }

  /** From the body of the first of these clauses on, falling through as long as the bodies say so. */
  lemma {:induction false} RunFromRuns(code: seq<Block>, cases: S.Cases, b: BlockId, end: BlockId, v: Typed, g: Gen, ctx: S.Ctx, f: Gen, t: LoopTarget,
                                       env: S.Env, ty: S.Ty, rep: nat, s: S.Store, c: Config, fuel: nat, last: Gen) returns (n: nat, d: Config)
    requires CasesReady(g, ctx, f, t, cases, b, end, env, ty, rep) && SwitchEnd(last, end)
    requires Ok(f) && end < |f.blocks| && b + CountClauses(cases) <= |f.blocks| && Ext(code, LowerCases(cases, b, end, v, f).blocks)
    requires AtBlock(c, BodyBlock(cases, b, end)) && S.Fits(s, env) && MemOk(s, c.mem)
    ensures d == Run(code, c, n) && HasTargets(g, ctx)
    ensures Reached(S.AfterSwitch(S.RunFrom(cases, s, g.checks, fuel)), env, env, PlacesOf(g, ctx), c, f.regs, last, d)
    ensures S.AfterSwitch(S.RunFrom(cases, s, g.checks, fuel)).OutOfFuel? ==> n >= fuel
    decreases fuel, cases, 2
  {
    hide LowerAll, TargetsOk, HasTargets, Ready, Ext, S.Fits, MemOk, S.ExecAll, Reached, Run, SameRegs, CasesReady, S.LegalAll, LowerCases;
    ReadyLimits(g, ctx, f, t, cases, b, end, env, ty, rep);
    match cases
    case NoCase =>
      n, d := 0, Run(code, c, 0);
      SameRegsFork(c, c, f.regs);
      NormalAt(S.Normal(s), env, PlacesOf(g, ctx), c, f.regs, last, d) by { RunNone(code, c); }
    case Default(_) => n, d := DefaultRuns(code, cases, b, end, v, g, ctx, f, t, env, ty, rep, s, c, fuel, last);
    case Case(_, _, _) => n, d := BodyRuns(code, cases, b, end, v, g, ctx, f, t, env, ty, rep, s, c, fuel, last);
  }

  lemma RunNone(code: seq<Block>, c: Config)
    ensures Run(code, c, 0) == c
  {
  }

  /** A clause's parts are in the code. */
  lemma ClauseCode(code: seq<Block>, g: Gen, ctx: S.Ctx, f: Gen, t: LoopTarget, cases: S.Cases, b: BlockId, end: BlockId, v: Typed,
                   env: S.Env, ty: S.Ty, rep: nat) returns (f1: Gen, h: Gen, f2: Gen)
    requires CasesReady(g, ctx, f, t, cases, b, end, env, ty, rep) && cases.Case?
    requires Ok(f) && end < |f.blocks| && b + CountClauses(cases) <= |f.blocks| && Ext(code, LowerCases(cases, b, end, v, f).blocks)
    ensures ClauseStages(g, ctx, f, t, cases, b, end, v, env, ty, rep, f1, h, f2)
    ensures Ext(code, f1.blocks) && Ext(code, h.blocks) && Ext(code, Leave(h, end).blocks) && Ext(code, LowerCases(cases.rest, b + 1, end, v, f2).blocks)
    ensures Ext(code, CaseTest(cases.value, cases.rest, b, end, v, f).0.blocks)
  {
    hide LowerAll, Ext, CasesReady, TargetsOk, HasTargets, Ready, CaseTest;
    f1, h, f2 := ClauseFacts(g, ctx, f, t, cases, b, end, v, env, ty, rep);
    ReadyLimits(g, ctx, f2, t, cases.rest, b + 1, end, env, ty, rep);
    CasesDown(code, g, ctx, f2, t, cases.rest, b + 1, end, v, env, ty, rep);
    DownLeave(code, h, end);
    DownAppends(code, f1, h);
  }

  lemma {:induction false} BodyRuns(code: seq<Block>, cases: S.Cases, b: BlockId, end: BlockId, v: Typed, g: Gen, ctx: S.Ctx, f: Gen, t: LoopTarget,
                                    env: S.Env, ty: S.Ty, rep: nat, s: S.Store, c: Config, fuel: nat, last: Gen) returns (n: nat, d: Config)
    requires CasesReady(g, ctx, f, t, cases, b, end, env, ty, rep) && cases.Case? && SwitchEnd(last, end)
    requires Ok(f) && end < |f.blocks| && b + CountClauses(cases) <= |f.blocks| && Ext(code, LowerCases(cases, b, end, v, f).blocks)
    requires AtBlock(c, b) && S.Fits(s, env) && MemOk(s, c.mem)
    ensures d == Run(code, c, n) && HasTargets(g, ctx)
    ensures Reached(S.AfterSwitch(S.RunFrom(cases, s, g.checks, fuel)), env, env, PlacesOf(g, ctx), c, f.regs, last, d)
    ensures S.AfterSwitch(S.RunFrom(cases, s, g.checks, fuel)).OutOfFuel? ==> n >= fuel
    decreases fuel, cases, 1
  {
    hide LowerAll, TargetsOk, HasTargets, Ready, Ext, S.Fits, MemOk, S.ExecAll, Reached, Run, SameRegs, CasesReady, S.LegalAll, LowerCases, ClauseStart, LowerClause, CaseTest, S.Rep, S.HasType;
    ReadyLimits(g, ctx, f, t, cases, b, end, env, ty, rep);
    var f1, h, f2 := ClauseCode(code, g, ctx, f, t, cases, b, end, v, env, ty, rep);
    ClauseLegal(g, ctx, f, t, cases, b, end, env, ty, rep);
    var p, q := PlacesOf(g, ctx), PlacesOf(f1, ClauseCtx(ctx));
    n, d := AllRuns(code, cases.body, env, ClauseCtx(ctx), s, f1, c, fuel);
    var fl, after := S.ExecAll(cases.body, s, g.checks, fuel), EnvAll(cases.body, env);
    SubEnvAll(cases.body, env, ClauseCtx(ctx));
    if fl.Fell? {
      var c1, m := d, 0;
      FellTo(fl, env, after, q, c, f1.regs, h, c1);
      ReadyLimits(g, ctx, f2, t, cases.rest, b + 1, end, env, ty, rep);
      m, d := RunFromRuns(code, cases.rest, b + 1, end, v, g, ctx, f2, t, env, ty, rep, fl.s, c1, fuel, last);
      assert Goes(code, c, n, c1, f1.regs);
      After(code, c, n, c1, f1.regs, S.AfterSwitch(S.RunFrom(cases.rest, fl.s, g.checks, fuel)), env, env, p, m, f2.regs, last, d);
      n := n + m;
    } else if fl.Normal? {
      n, d := ClauseEnds(code, fl, env, after, q, p, c, n, f1.regs, h, d, last, end);
    } else {
      ClauseLeft(fl, env, after, q.fall, p, c, f1.regs, h, d, last, end);
    }
    FewerKept(S.AfterSwitch(S.RunFrom(cases, s, g.checks, fuel)), env, p, c, f1.regs, f.regs, last, d);
  }

  lemma ClauseLegal(g: Gen, ctx: S.Ctx, f: Gen, t: LoopTarget, cases: S.Cases, b: BlockId, end: BlockId, env: S.Env, ty: S.Ty, rep: nat)
    requires CasesReady(g, ctx, f, t, cases, b, end, env, ty, rep) && cases.Case?
    ensures S.LegalAll(cases.body, env, ClauseCtx(ctx)) && S.HasType(cases.value, env, ty) && S.Rep(cases.value) == rep
  {
  }

  lemma FellTo(f: S.Flow, env: S.Env, after: S.Env, p: Places, c: Config, k: nat, h: Gen, d: Config)
    requires Reached(f, env, after, p, c, k, h, d) && f.Fell?
    ensures p.fall.To? && AtBlock(d, p.fall.bb) && MemOk(f.s, d.mem) && S.Fits(f.s, env) && SameRegs(c, d, k)
  {
  }

  /** One comparison after the other until a value matches. */
  lemma {:induction false} SelectRuns(code: seq<Block>, cases: S.Cases, b: BlockId, end: BlockId, v: Typed, g: Gen, ctx: S.Ctx, f: Gen, t: LoopTarget,
                                      env: S.Env, ty: S.Ty, rep: nat, s: S.Store, x: S.Value, c: Config, fuel: nat, last: Gen) returns (n: nat, d: Config)
    requires CasesReady(g, ctx, f, t, cases, b, end, env, ty, rep) && SwitchEnd(last, end)
    requires Ok(f) && end < |f.blocks| && b + CountClauses(cases) <= |f.blocks| && Ext(code, LowerCases(cases, b, end, v, f).blocks)
    requires At(c, f) && S.Fits(s, env) && MemOk(s, c.mem) && Known(f, v.op) && Holds(c, v.op, Encode(x)) && S.ValueFits(x, S.Scalar(ty))
    ensures d == Run(code, c, n) && HasTargets(g, ctx)
    ensures Reached(S.AfterSwitch(S.Select(x, cases, s, g.checks, fuel)), env, env, PlacesOf(g, ctx), c, f.regs, last, d)
    ensures S.AfterSwitch(S.Select(x, cases, s, g.checks, fuel)).OutOfFuel? ==> n >= fuel
    decreases fuel, cases, 4
  {
    hide LowerAll, TargetsOk, HasTargets, Ready, Ext, S.Fits, MemOk, S.ExecAll, Reached, Run, SameRegs, CasesReady, S.LegalAll, LowerCases, S.RunFrom;
    ReadyLimits(g, ctx, f, t, cases, b, end, env, ty, rep);
    match cases
    case NoCase =>
      n, d := 0, Run(code, c, 0);
      SameRegsFork(c, c, f.regs);
      NormalAt(S.Normal(s), env, PlacesOf(g, ctx), c, f.regs, last, d) by { RunNone(code, c); }
    case Default(_) => n, d := DefaultRuns(code, cases, b, end, v, g, ctx, f, t, env, ty, rep, s, c, fuel, last);
    case Case(_, _, _) => n, d := CompareRuns(code, cases, b, end, v, g, ctx, f, t, env, ty, rep, s, x, c, fuel, last);
  }

  lemma {:induction false} CompareRuns(code: seq<Block>, cases: S.Cases, b: BlockId, end: BlockId, v: Typed, g: Gen, ctx: S.Ctx, f: Gen, t: LoopTarget,
                                       env: S.Env, ty: S.Ty, rep: nat, s: S.Store, x: S.Value, c: Config, fuel: nat, last: Gen) returns (n: nat, d: Config)
    requires CasesReady(g, ctx, f, t, cases, b, end, env, ty, rep) && cases.Case? && SwitchEnd(last, end)
    requires Ok(f) && end < |f.blocks| && b + CountClauses(cases) <= |f.blocks| && Ext(code, LowerCases(cases, b, end, v, f).blocks)
    requires At(c, f) && S.Fits(s, env) && MemOk(s, c.mem) && Known(f, v.op) && Holds(c, v.op, Encode(x)) && S.ValueFits(x, S.Scalar(ty))
    ensures d == Run(code, c, n) && HasTargets(g, ctx)
    ensures Reached(S.AfterSwitch(S.Select(x, cases, s, g.checks, fuel)), env, env, PlacesOf(g, ctx), c, f.regs, last, d)
    ensures S.AfterSwitch(S.Select(x, cases, s, g.checks, fuel)).OutOfFuel? ==> n >= fuel
    decreases fuel, cases, 3
  {
    hide LowerAll, TargetsOk, HasTargets, Ready, Ext, S.Fits, MemOk, S.ExecAll, Reached, Run, SameRegs, CasesReady, S.LegalAll, LowerCases, S.RunFrom, CaseTest, LowerClause, S.Eval, S.Rep, S.HasType;
    ReadyLimits(g, ctx, f, t, cases, b, end, env, ty, rep);
    var f1, h, f2 := ClauseCode(code, g, ctx, f, t, cases, b, end, v, env, ty, rep);
    ClauseLegal(g, ctx, f, t, cases, b, end, env, ty, rep);
    var p := PlacesOf(g, ctx);
    n, d := CaseTestRuns(code, cases.value, cases.rest, b, end, v, env, ty, s, f, x, c);
    var o := S.Eval(cases.value, s, g.checks);
    if !o.Val? {
      Failed(o, env, p, c, f.regs, last, d);
    } else {
      var c1, m := d, 0;
      assert Goes(code, c, n, c1, f.regs);
      if o.v == x {
        m, d := BodyRuns(code, cases, b, end, v, g, ctx, f, t, env, ty, rep, s, c1, fuel, last);
        After(code, c, n, c1, f.regs, S.AfterSwitch(S.RunFrom(cases, s, g.checks, fuel)), env, env, p, m, f.regs, last, d);
      } else {
        ReadyLimits(g, ctx, f2, t, cases.rest, b + 1, end, env, ty, rep);
        HoldsLater(c, c1, f, v.op, Encode(x));
        m, d := SelectRuns(code, cases.rest, b + 1, end, v, g, ctx, f2, t, env, ty, rep, s, x, c1, fuel, last);
        After(code, c, n, c1, f.regs, S.AfterSwitch(S.Select(x, cases.rest, s, g.checks, fuel)), env, env, p, m, f2.regs, last, d);
      }
      n := n + m;
    }
  }

  lemma {:induction false} SwitchRuns(code: seq<Block>, st: S.Stmt, env: S.Env, ctx: S.Ctx, s: S.Store, g: Gen, c: Config, fuel: nat)
    returns (n: nat, d: Config)
    requires st.Switch? && Begins(st, env, ctx, s, g, c) && Ext(code, LowerSwitch(st, g).blocks)
    ensures d == Run(code, c, n) && HasTargets(g, ctx)
    ensures Reached(S.Exec(st, s, g.checks, fuel), env, env, PlacesOf(g, ctx), c, g.regs, LowerSwitch(st, g), d)
    ensures S.Exec(st, s, g.checks, fuel).OutOfFuel? ==> n >= fuel
    decreases fuel, st, 0
  {
    hide LowerExpr, LowerCases, LowerSwitch, TidyOpen, Tidy, TargetsOk, HasTargets, Ready, Ext, S.HasType, Pop, Reached, S.Fits, MemOk, SameRegs, Run, S.Eval, S.Select, CasesReady, SwitchHead, Outer;
    TargetsHave(g, ctx);
    var ty, f, t := SwitchFacts(code, st, g, env, ctx);
    var (g1, v) := LowerExpr(st.e, g);
    var p, last, end := PlacesOf(g, ctx), LowerSwitch(st, g), |g1.blocks|;
    n, d := ExprRuns(code, st.e, env, ty, s, g, c);
    var o := S.Eval(st.e, s, g.checks);
    if !o.Val? {
      Failed(o, env, p, c, g.regs, last, d);
    } else {
      var c1, m := d, 0;
      assert Goes(code, c, n, c1, g.regs);
      m, d := SelectRuns(code, st.cases, end + 1, end, v, g, ctx, f, t, env, ty, S.Rep(st.e), s, o.v, c1, fuel, last);
      After(code, c, n, c1, g.regs, S.AfterSwitch(S.Select(o.v, st.cases, s, g.checks, fuel)), env, env, p, m, f.regs, last, d);
      n := n + m;
    }
  }

  lemma SwitchFacts(code: seq<Block>, st: S.Stmt, g: Gen, env: S.Env, ctx: S.Ctx) returns (ty: S.Ty, f: Gen, t: LoopTarget)
    requires st.Switch? && S.Legal(st, env, ctx) && Ready(g) && TargetsOk(g, ctx) && Ext(code, LowerSwitch(st, g).blocks)
    ensures Ok(g)
    ensures var (g1, v) := LowerExpr(st.e, g);
      var end := |g1.blocks|;
      && f == SwitchHead(st.cases, g1) && CasesReady(g, ctx, f, t, st.cases, end + 1, end, env, ty, S.Rep(st.e)) && S.HasType(st.e, env, ty)
      && end < |f.blocks| && end + 1 + CountClauses(st.cases) <= |f.blocks| && f.blocks[f.cur] == g1.blocks[g1.cur] && f.cur == g1.cur && f.regs == g1.regs && Ok(f)
      && Ext(code, LowerCases(st.cases, end + 1, end, v, f).blocks) && Ext(code, g1.blocks) && SwitchEnd(LowerSwitch(st, g), end)
  {
    hide LowerExpr, LowerCases, TidyOpen, Tidy, TargetsOk, HasTargets, Ready, Ext, S.HasType, Pop, ClauseState, Outer, S.LegalCases, SwitchLowered;
    TargetsHave(g, ctx);
    ReadyOk(g);
    var (g1, v) := LowerExpr(st.e, g);
    var end := |g1.blocks|;
    SwitchHeadTidy(st, g, ctx);
    ty :| S.HasType(st.e, env, ty) && S.LegalCases(st.cases, env, ctx.depth + 1, ty, S.Rep(st.e));
    f, t := SwitchHead(st.cases, g1), LoopTarget(NoTarget, end);
    CasesTidy(g, ctx, f, t, st.cases, end + 1, end, v, env, ty, S.Rep(st.e));
    var h := LowerCases(st.cases, end + 1, end, v, f);
    EndEmpty(g, ctx, t, end, h);
    PopBlocks(h);
    CasesDown(code, g, ctx, f, t, st.cases, end + 1, end, v, env, ty, S.Rep(st.e));
    HeadDown(code, g1, f, st.cases);
  }

  lemma EndEmpty(g: Gen, ctx: S.Ctx, t: LoopTarget, end: BlockId, h: Gen)
    requires SwitchLowered(g, ctx, t, end, h)
    ensures end < |h.blocks| && h.blocks[end] == []
  {
  }

  lemma HeadDown(code: seq<Block>, g: Gen, f: Gen, cases: S.Cases)
    requires Ok(g) && f == SwitchHead(cases, g) && Ext(code, f.blocks)
    ensures Ext(code, g.blocks) && f.blocks[f.cur] == g.blocks[g.cur] && f.regs == g.regs
  {
    forall b | 0 <= b < |g.blocks| ensures g.blocks[b] <= code[b] {
      assert f.blocks[b] == g.blocks[b];
    }
  }
}
