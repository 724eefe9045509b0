/** What the generator emits for statements. */
module Statements {
  import opened Words
  import opened Cfg
  import opened Lower
  import S = Source

  const MAX_LOOP_DEPTH := 64

  // ---- the loop stack ----

  /** Beyond the stack's capacity nothing is pushed. */
  function Push(g: Gen, t: LoopTarget): (h: Gen)
    ensures h == g.(loops := h.loops)
  {
    if |g.loops| < MAX_LOOP_DEPTH then g.(loops := g.loops + [t]) else g
  }

  function Pop(g: Gen): (h: Gen)
    ensures h == g.(loops := h.loops)
  {
    if |g.loops| > 0 then g.(loops := g.loops[..|g.loops| - 1]) else g
  }

  /** Leaving a loop undoes entering it exactly when there was room to enter it. A loop inside the 64th is not recorded, and
      leaving it forgets the 64th instead, so that a `break` behind it leads out of the 63rd. */
  lemma PushPop(g: Gen, t: LoopTarget)
    requires |g.loops| <= MAX_LOOP_DEPTH
    ensures Pop(Push(g, t)) == g <==> |g.loops| < MAX_LOOP_DEPTH
    ensures |g.loops| < MAX_LOOP_DEPTH ==> Push(g, t).loops == g.loops + [t]
    ensures |g.loops| == MAX_LOOP_DEPTH ==> Push(g, t) == g
    ensures |g.loops| == MAX_LOOP_DEPTH && Ok(g) ==>
      LowerStmt(S.Break, Pop(Push(g, t))) == Emit(Pop(g), Br(g.loops[MAX_LOOP_DEPTH - 2].breakBb))
  {
    if |g.loops| < MAX_LOOP_DEPTH { assert (g.loops + [t])[..|g.loops|] == g.loops; }
  }

  /** Branch to bb unless the current block has been left already. */
  function Leave(g: Gen, bb: BlockId): (h: Gen)
    requires Ok(g)
    ensures After(g, h) && h.cur == g.cur && |h.blocks| == |g.blocks|
  {
    if Terminated(g.blocks[g.cur]) then g else Emit(g, Br(bb))
  }

  // ---- clauses of a switch ----

  /** The block of the first clause's body, given that bodies are numbered from b. */
  function BodyBlock(cases: S.Cases, b: BlockId, end: BlockId): BlockId {
    if cases.NoCase? then end else b
  }

  function CountClauses(cases: S.Cases): nat {
    match cases
    case NoCase => 0
    case Default(_) => 1
    case Case(_, _, rest) => 1 + CountClauses(rest)
  }

  // ---- assignment ----

  /** Read-modify-write for `op=`; a plain assignment stores the value itself. */
  function Update(g: Gen, how: S.AssignOp, region: Region, index: Operand, v: Typed): (r: (Gen, Operand))
    requires Ok(g) && Known(g, v.op)
    ensures After(g, r.0) && r.0.cur == g.cur && |r.0.blocks| == |g.blocks| && Known(r.0, r.1)
  {
    if how.Plain? then (g, v.op)
    else
      var r := g.regs;
      (EmitAll(g, [Load(r, region, index), Binary(r + 1, MachineOp(how.op), Reg(r), v.op)], 2), Reg(r + 1))
  }

  // ---- statements ----

  function LowerStmt(st: S.Stmt, g: Gen): (h: Gen)
    requires Ok(g)
    ensures Later(g, h)
    decreases st, 1
  {
    match st
    case ExprStmt(e) => LowerExpr(e, g).0
    case Declare(x, ty, e) =>
      var slot, width := Slot(x, S.WidthOf(ty)), S.WidthOf(ty);
      var g1 := EmitAll(g, [Alloca(slot, 1), Store(Imm(0), slot, Imm(0), width)], 0);
      var (g2, v) := LowerExpr(e, g1);
      var (g3, w) := Coerce(g2, v, width);
      Emit(g3, Store(w, slot, Imm(0), width))
    case Assign(x, ty, how, e) =>
      var (g1, v) := LowerExpr(e, g);
      var (g2, w) := Update(g1, how, Slot(x, S.WidthOf(ty)), Imm(0), v);
      Emit(g2, Store(w, Slot(x, S.WidthOf(ty)), Imm(0), v.width))
    case AssignElem(_, _, _, _, _) => LowerAssignElem(st, g)
    case Block(body) => LowerAll(body, g)
    case If(_, _) => LowerIf(st, g)
    case IfElse(_, _, _) => LowerIfElse(st, g)
    case For(_, _) => LowerFor(st, g)
    case ForRange(_, _, _, _, _) => LowerForRange(st, g)
    case Switch(_, _) => LowerSwitch(st, g)
    case Break => if |g.loops| > 0 then Emit(g, Br(g.loops[|g.loops| - 1].breakBb)) else g
    case Continue =>
      if |g.loops| > 0 && g.loops[|g.loops| - 1].continueBb.To? then Emit(g, Br(g.loops[|g.loops| - 1].continueBb.bb)) else g
    case Fallthrough => if g.fall.To? then Emit(g, Br(g.fall.bb)) else g
    case Return(e, ty) =>
      var (g1, v) := LowerExpr(e, g);
      var (g2, w) := Coerce(g1, v, S.WidthOf(ty));
      Emit(g2, Ret(w))
    case ReturnVoid => Emit(g, RetVoid)
  }

  function LowerAll(ss: S.Stmts, g: Gen): (h: Gen)
    requires Ok(g)
    ensures Later(g, h)
    decreases ss, 1
  {
    match ss
    case Nil => g
    case Cons(st, rest) => LowerAll(rest, LowerStmt(st, g))
  }

  function LowerAssignElem(st: S.Stmt, g: Gen): (h: Gen)
    requires Ok(g) && st.AssignElem?
    ensures Later(g, h)
    decreases st, 0
  {
    var (g1, v) := LowerExpr(st.e, g);
    var (g2, iv) := LowerExpr(st.i, g1);
    var (g3, idx) := BoundsCheck(g2, iv, st.len);
    var (g4, w) := Update(g3, st.how, Slot(st.arr, 64), idx, v);
    Emit(g4, Store(w, Slot(st.arr, 64), idx, v.width))
  }

  function LowerIf(st: S.Stmt, g: Gen): (h: Gen)
    requires Ok(g) && st.If?
    ensures Later(g, h)
    decreases st, 0
  {
    var (g1, a) := LowerExpr(st.c, g);
    var (g2, b) := Truth(g1, a);
    var f := Fork(g2, b, true);
    var g3 := Leave(LowerStmt(st.thn, f), |g2.blocks| + 1);
    Move(g3, |g2.blocks| + 1)
  }

  function LowerIfElse(st: S.Stmt, g: Gen): (h: Gen)
    requires Ok(g) && st.IfElse?
    ensures Later(g, h)
    decreases st, 0
  {
    var (g1, a) := LowerExpr(st.c, g);
    var (g2, b) := Truth(g1, a);
    var f := Fork3(g2, b);
    var els, merge := |g2.blocks| + 1, |g2.blocks| + 2;
    var g3 := Leave(LowerStmt(st.thn, f), merge);
    var g4 := Leave(LowerStmt(st.els, Move(g3, els)), merge);
    Move(g4, merge)
  }

  /** The test at the head of a `for`: on true to body, otherwise to end. */
  function LowerTest(cond: S.MaybeExpr, g: Gen, body: BlockId, end: BlockId): (h: Gen)
    requires Ok(g)
    ensures After(g, h)
  {
    if cond.NoExpr? then Emit(g, Br(body))
    else
      var (g1, a) := LowerExpr(cond.e, g);
      var (g2, b) := Truth(g1, a);
      Emit(g2, CondBr(b, body, end))
  }

  /** Enter a `for` and make the test at its head. */
  function ForHead(cond: S.MaybeExpr, g: Gen): (h: Gen)
    requires Ok(g)
    ensures Later(g, h) && h.cur == |g.blocks| + 1 && |g.blocks| + 2 < |h.blocks| && h.fall == g.fall
    ensures h.loops == Push(g, LoopTarget(To(|g.blocks|), |g.blocks| + 2)).loops
  {
    var n := |g.blocks|;
    Move(LowerTest(cond, EnterLoop(g, 3, LoopTarget(To(n), n + 2)), n + 1, n + 2), n + 1)
  }

  function LowerFor(st: S.Stmt, g: Gen): (h: Gen)
    requires Ok(g) && st.For?
    ensures Later(g, h)
    decreases st, 0
  {
    var cond, end := |g.blocks|, |g.blocks| + 2;
    Move(Pop(Leave(LowerAll(st.body, ForHead(st.cond, g)), cond)), end)
  }

  /** The range's bounds, stored in a pair and read back. */
  function LowerBounds(lo: S.Expr, hi: S.Expr, inclusive: bool, g: Gen): (r: (Gen, Operand, Operand))
    requires Ok(g)
    ensures After(g, r.0) && Known(r.0, r.1) && Known(r.0, r.2)
  {
    var (g1, low) := LowerExpr(lo, g);
    var (g2, high) := LowerExpr(hi, g1);
    StorePair(g2, low.op, high.op, inclusive)
  }

  function StorePair(g: Gen, low: Operand, high: Operand, inclusive: bool): (r: (Gen, Operand, Operand))
    requires Ok(g)
    ensures After(g, r.0) && Known(r.0, r.1) && Known(r.0, r.2)
  {
    var t, r := Temp(g.temps), g.regs;
    var h := g.(temps := g.temps + 1);
    if inclusive then (EmitAll(h, PairCode(t, r, low, high, true), 3), Reg(r + 1), Reg(r + 2))
    else (EmitAll(h, PairCode(t, r, low, high, false), 2), Reg(r), Reg(r + 1))
  }

  function PairCode(t: Region, r: nat, low: Operand, high: Operand, inclusive: bool): seq<Instr> {
    if inclusive then
      [ Alloca(t, 2), Store(low, t, Imm(0), 64), Binary(r, Add, high, Imm(1)), Store(Reg(r), t, Imm(1), 64),
        Load(r + 1, t, Imm(0)), Load(r + 2, t, Imm(1)) ]
    else
      [ Alloca(t, 2), Store(low, t, Imm(0), 64), Store(high, t, Imm(1), 64), Load(r, t, Imm(0)), Load(r + 1, t, Imm(1)) ]
  }

  /** Append the loop's n blocks, push its jump targets, and jump to the first block. */
  function EnterLoop(g: Gen, n: nat, t: LoopTarget): (h: Gen)
    requires Ok(g) && n > 0
    ensures Later(g, h) && h.cur == |g.blocks| && |h.blocks| == |g.blocks| + n && h.fall == g.fall
    ensures h.loops == Push(g, t).loops
  {
    Move(Emit(Push(NewBlocks(g, n), t), Br(|g.blocks|)), |g.blocks|)
  }

  /** The same for a range loop, which sets its variable first. */
  function EnterRange(g: Gen, x: Region, low: Operand, t: LoopTarget): (h: Gen)
    requires Ok(g)
    ensures Later(g, h) && h.cur == |g.blocks| && |h.blocks| == |g.blocks| + 4 && h.fall == g.fall
    ensures h.loops == Push(g, t).loops
  {
    var g1 := EmitAll(Push(NewBlocks(g, 4), t), [Alloca(x, 1), Store(low, x, Imm(0), 64)], 0);
    Move(Emit(g1, Br(|g.blocks|)), |g.blocks|)
  }

  /** Enter a range loop and make the test at its head. */
  function RangeHead(g: Gen, x: Region, low: Operand, high: Operand): (h: Gen)
    requires Ok(g)
    ensures Later(g, h) && h.cur == |g.blocks| + 1 && |h.blocks| == |g.blocks| + 4 && h.fall == g.fall
    ensures h.loops == Push(g, LoopTarget(To(|g.blocks| + 2), |g.blocks| + 3)).loops
  {
    var n := |g.blocks|;
    Move(RangeTest(EnterRange(g, x, low, LoopTarget(To(n + 2), n + 3)), x, high, n + 1, n + 3), n + 1)
  }

  function LowerForRange(st: S.Stmt, g: Gen): (h: Gen)
    requires Ok(g) && st.ForRange?
    ensures Later(g, h)
    decreases st, 0
  {
    var (g1, low, high) := LowerBounds(st.lo, st.hi, st.inclusive, g);
    var n, x := |g1.blocks|, Slot(st.x, 64);
    var f := RangeHead(g1, x, low, high);
    var h := Move(Leave(LowerAll(st.body, f), n + 2), n + 2);
    Move(Pop(RangeStep(h, x, n)), n + 3)
  }

  /** cond: go on while the variable is below the end of the range. */
  function RangeTest(g: Gen, x: Region, high: Operand, body: BlockId, end: BlockId): (h: Gen)
    requires Ok(g)
    ensures After(g, h) && |h.blocks| == |g.blocks|
  {
    var r := g.regs;
    Emit(EmitAll(g, [Load(r, x, Imm(0)), ICmp(r + 1, Slt, Reg(r), high, 64)], 2), CondBr(Reg(r + 1), body, end))
  }

  /** inc: add one to the variable and test again. */
  function RangeStep(g: Gen, x: Region, cond: BlockId): (h: Gen)
    requires Ok(g)
    ensures After(g, h) && |h.blocks| == |g.blocks|
  {
    var r := g.regs;
    Emit(EmitAll(g, [Load(r, x, Imm(0)), Binary(r + 1, Add, Reg(r), Imm(1)), Store(Reg(r + 1), x, Imm(0), 64)], 2), Br(cond))
  }

  /** Append the end block and a block for each clause's body; `break` leads to the end block. */
  function SwitchHead(cases: S.Cases, g: Gen): (h: Gen)
    requires Ok(g)
    ensures Later(g, h) && h.cur == g.cur && |h.blocks| == |g.blocks| + 1 + CountClauses(cases)
  {
    Push(NewBlocks(g, 1 + CountClauses(cases)), LoopTarget(NoTarget, |g.blocks|))
  }

  function LowerSwitch(st: S.Stmt, g: Gen): (h: Gen)
    requires Ok(g) && st.Switch?
    ensures Later(g, h)
    decreases st, 0
  {
    var (g1, v) := LowerExpr(st.e, g);
    var end := |g1.blocks|;
    Move(Pop(LowerCases(st.cases, end + 1, end, v, SwitchHead(st.cases, g1))), end)
  }

  /** Lower the clauses from the block in which the next comparison is made. */
  function LowerCases(cases: S.Cases, b: BlockId, end: BlockId, v: Typed, g: Gen): (h: Gen)
    requires Ok(g) && end < |g.blocks| && b + CountClauses(cases) <= |g.blocks|
    ensures Ok(h) && |g.blocks| <= |h.blocks| && g.regs <= h.regs && g.temps <= h.temps && h.checks == g.checks
    decreases cases, 1
  {
    match cases
    case NoCase => g
    case Default(body) => Leave(LowerAll(body, Move(g, b)), end)
    case Case(_, _, rest) => LowerCases(rest, b + 1, end, v, LowerClause(cases, b, end, v, g))
  }

  /** One comparison and the body it guards, up to the block of the next comparison. */
  function LowerClause(cases: S.Cases, b: BlockId, end: BlockId, v: Typed, g: Gen): (h: Gen)
    requires Ok(g) && cases.Case? && end < |g.blocks| && b + CountClauses(cases) <= |g.blocks|
    ensures Ok(h) && |g.blocks| <= |h.blocks| && g.regs <= h.regs && g.temps <= h.temps && h.checks == g.checks
    decreases cases, 0
  {
    var (f, miss) := ClauseStart(cases, b, end, v, g);
    Move(Leave(LowerAll(cases.body, f), end), miss).(fall := NoTarget)
  }

  /** The comparison, going on in the clause's body with the next clause's body as the fallthrough target. */
  function ClauseStart(cases: S.Cases, b: BlockId, end: BlockId, v: Typed, g: Gen): (r: (Gen, BlockId))
    requires Ok(g) && cases.Case? && end < |g.blocks| && b + CountClauses(cases) <= |g.blocks|
    ensures Ok(r.0) && r.0.cur == b && |g.blocks| <= |r.0.blocks| && r.1 < |r.0.blocks| && r.0.checks == g.checks
    ensures g.regs <= r.0.regs && g.temps <= r.0.temps && r.0.loops == g.loops && r.0.fall == To(BodyBlock(cases.rest, b + 1, end))
  {
    var (g1, miss) := CaseTest(cases.value, cases.rest, b, end, v, g);
    (Move(g1, b).(fall := To(BodyBlock(cases.rest, b + 1, end))), miss)
  }

  /** Compare the switch value with one case value; on a mismatch go on at the returned block. */
  function CaseTest(value: S.Expr, rest: S.Cases, b: BlockId, end: BlockId, v: Typed, g: Gen): (r: (Gen, BlockId))
    requires Ok(g) && end < |g.blocks| && b + 1 + CountClauses(rest) <= |g.blocks|
    ensures After(g, r.0) && r.1 < |r.0.blocks|
  {
    var (g1, w) := LowerExpr(value, g);
    var (g2, miss) := if rest.Case? then (NewBlocks(g1, 1), |g1.blocks|) else (g1, BodyBlock(rest, b + 1, end));
    var (g3, eq) := Define(g2, ICmp(g2.regs, Eq, v.op, w.op, v.width));
    (Emit(g3, CondBr(eq, b, miss)), miss)
  }

  /** A procedure: its body in the entry block, and a zero return if control can reach the end. */
  function LowerProcedure(body: S.Stmts, checks: bool, void: bool): seq<Block> {
    var g := LowerAll(body, Gen([[]], 0, 0, 0, [], NoTarget, checks));
    if Terminated(g.blocks[g.cur]) then g.blocks
    else Emit(g, if void then RetVoid else Ret(Imm(0))).blocks
  }
}
