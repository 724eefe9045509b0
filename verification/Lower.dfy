/** What the generator emits for expressions, as functions from one generator state to the next.
    Module Generator carries the same steps out in place. */
module Lower {
  import opened Words
  import opened Cfg
  import S = Source

  datatype Target = NoTarget | To(bb: BlockId)

  /** One entry of the loop stack; a switch has no block to continue at. */
  datatype LoopTarget = LoopTarget(continueBb: Target, breakBb: BlockId)

  /** The mutable part of the generator: the function's blocks, the builder's position,
      the supply of registers and temporaries, the loop stack and the fallthrough target. */
  datatype Gen = Gen(blocks: seq<Block>, cur: BlockId, regs: nat, temps: nat,
                     loops: seq<LoopTarget>, fall: Target, checks: bool)

  /** An LLVM value with the width of its integer type. */
  datatype Typed = Typed(op: Operand, width: nat)

  predicate Ok(g: Gen) { g.cur < |g.blocks| }

  // ---- the builder ----

  function Emit(g: Gen, i: Instr): (h: Gen)
    requires Ok(g)
    ensures After(g, h)
  {
    g.(blocks := g.blocks[g.cur := g.blocks[g.cur] + [i]])
  }

  /** Emit several instructions that use up n registers. */
  function EmitAll(g: Gen, ins: seq<Instr>, n: nat): (h: Gen)
    requires Ok(g)
    ensures After(g, h) && h.cur == g.cur && |h.blocks| == |g.blocks| && h.regs == g.regs + n
  {
    g.(blocks := g.blocks[g.cur := g.blocks[g.cur] + ins], regs := g.regs + n)
  }

  /** Emit an instruction whose result is the next register. */
  function Define(g: Gen, i: Instr): (r: (Gen, Operand))
    requires Ok(g)
    ensures After(g, r.0) && r.0.cur == g.cur && Known(r.0, r.1) && r.1 == Reg(g.regs)
  {
    (Emit(g, i).(regs := g.regs + 1), Reg(g.regs))
  }

  /** Append n empty blocks; their ids follow the existing ones. */
  function NewBlocks(g: Gen, n: nat): Gen { g.(blocks := g.blocks + seq(n, _ => [])) }

  function Move(g: Gen, bb: BlockId): Gen { g.(cur := bb) }

  /** h comes later than g, and its current block is g's or a new one. */
  predicate Later(g: Gen, h: Gen) {
    && Ok(h)
    && |g.blocks| <= |h.blocks|
    && (h.cur == g.cur || h.cur >= |g.blocks|)
    && g.regs <= h.regs && g.temps <= h.temps
    && h.checks == g.checks
  }

  /** Later, and with the same jump targets. */
  predicate After(g: Gen, h: Gen) {
    Later(g, h) && h.loops == g.loops && h.fall == g.fall
  }

  predicate Known(g: Gen, op: Operand) { op.Reg? ==> op.id < g.regs }

  // ---- width conversions ----

  /** The i1 a branch tests: the value itself, or a comparison with zero. */
  function Truth(g: Gen, v: Typed): (r: (Gen, Operand))
    requires Ok(g) && Known(g, v.op)
    ensures After(g, r.0) && r.0.cur == g.cur && Known(r.0, r.1)
  {
    if v.width == 1 then (g, v.op) else TestZero(g, Ne, v)
  }

  /** Compare a value of any width with zero. */
  function TestZero(g: Gen, pred: Pred, v: Typed): (r: (Gen, Operand))
    requires Ok(g) && Known(g, v.op)
    ensures After(g, r.0) && r.0.cur == g.cur && r.1 == Reg(g.regs) && r.0.regs == g.regs + 1
  {
    Define(g, ICmp(g.regs, pred, v.op, Imm(0), v.width))
  }

  /** LLVMBuildIntCast2 with an unsigned source. */
  function Resize(g: Gen, v: Typed, width: nat): (r: (Gen, Operand))
    requires Ok(g) && Known(g, v.op)
    ensures After(g, r.0) && r.0.cur == g.cur && Known(r.0, r.1)
  {
    if v.width == width then (g, v.op)
    else Define(g, Cast(g.regs, if width < v.width then Trunc else ZExt, v.op, v.width, width))
  }

  /** Bring the right operand of a binary operation to the left operand's width, sign-extending. */
  function Coerce(g: Gen, v: Typed, width: nat): (r: (Gen, Operand))
    requires Ok(g) && Known(g, v.op)
    ensures After(g, r.0) && r.0.cur == g.cur && Known(r.0, r.1)
  {
    if v.width == width then (g, v.op)
    else Define(g, Cast(g.regs, if width < v.width then Trunc else SExt, v.op, v.width, width))
  }

  // ---- branching on the left operand, joining after the right one ----

  /** Append two blocks, branch to the first when cond equals rhsOnTrue and to the second otherwise,
      and continue in the first. */
  function Fork(g: Gen, cond: Operand, rhsOnTrue: bool): (h: Gen)
    requires Ok(g)
    ensures After(g, h) && h.cur == |g.blocks| && |h.blocks| == |g.blocks| + 2
  {
    var rhs, merge := |g.blocks|, |g.blocks| + 1;
    var g1 := NewBlocks(g, 2);
    Move(Emit(g1, if rhsOnTrue then CondBr(cond, rhs, merge) else CondBr(cond, merge, rhs)), rhs)
  }

  /** Append the blocks then, else and merge, branch, and continue in then. */
  function Fork3(g: Gen, cond: Operand): (h: Gen)
    requires Ok(g)
    ensures After(g, h) && h.cur == |g.blocks| && |h.blocks| == |g.blocks| + 3
  {
    var thn, els := |g.blocks|, |g.blocks| + 1;
    Move(Emit(NewBlocks(g, 3), CondBr(cond, thn, els)), thn)
  }

  /** Leave the right operand's last block for merge and select between the two values there.
      The second predecessor is the block the builder is in now. */
  function Join(g: Gen, merge: BlockId, v0: Operand, from0: BlockId, v1: Operand): (r: (Gen, Operand))
    requires Ok(g) && merge < |g.blocks|
    ensures Ok(r.0) && r.0.cur == merge && |r.0.blocks| == |g.blocks| && r.1 == Reg(g.regs) && r.0.regs == g.regs + 1
    ensures r.0.temps == g.temps && r.0.loops == g.loops && r.0.fall == g.fall && r.0.checks == g.checks
  {
    var from1 := g.cur;
    var g1 := Move(Emit(g, Br(merge)), merge);
    Define(g1, Phi(g1.regs, [(v0, from0), (v1, from1)]))
  }

  // ---- expressions ----

  function MachineOp(op: S.ArithOp): BinOp {
    match op
    case Plus => Add
    case Minus => Sub
    case Times => Mul
    case Divide => SDiv
    case Modulo => SRem
    case ShiftLeft => Shl
    case ShiftRight => AShr
    case BitwiseAnd => And
    case BitwiseOr => Or
    case BitwiseXor => Xor
  }

  function MachinePred(op: S.RelOp): Pred {
    match op
    case EqOp => Eq
    case NeOp => Ne
    case LtOp => Slt
    case GtOp => Sgt
    case LeOp => Sle
    case GeOp => Sge
  }

  /** Split the current block on `index >=u len`: trap in the second new block, go on in the first. */
  function BoundsCheck(g: Gen, v: Typed, len: nat): (r: (Gen, Operand))
    requires Ok(g) && Known(g, v.op)
    ensures After(g, r.0) && Known(r.0, r.1)
  {
    if !g.checks then (g, v.op) else
    var (g0, index) := Resize(g, v, 64);
    var (g1, oob) := Define(g0, ICmp(g0.regs, Uge, index, Imm(len), 64));
    var f := Fork(g1, oob, false);
    var t := Move(f, |g1.blocks| + 1);
    (Move(Emit(Emit(t, CallTrap), Unreachable), f.cur), index)
  }

  /** The six blocks of the search loop of `in` over an array: loop, body, incr, found, notfound, merge.
      n is the id of the first, r the next free register, t the loop counter's slot. */
  function SearchBlocks(n: BlockId, r: nat, t: Region, v: Operand, arr: nat, len: nat, negated: bool): (bs: seq<Block>)
    ensures |bs| == 6
  {
    [ [Load(r, t, Imm(0)), ICmp(r + 1, Slt, Reg(r), Imm(len), 64), CondBr(Reg(r + 1), n + 1, n + 4)],
      [Load(r + 2, Slot(arr, 64), Reg(r)), ICmp(r + 3, Eq, v, Reg(r + 2), 64), CondBr(Reg(r + 3), n + 3, n + 2)],
      [Binary(r + 4, Add, Reg(r), Imm(1)), Store(Reg(r + 4), t, Imm(0), 64), Br(n)],
      [Br(n + 5)],
      [Br(n + 5)],
      [Phi(r + 5, [(Imm(1), n + 3), (Imm(0), n + 4)])]
      + if negated then [Binary(r + 6, Xor, Reg(r + 5), Imm(1)), Cast(r + 7, ZExt, Reg(r + 6), 1, 64)]
        else [Cast(r + 6, ZExt, Reg(r + 5), 1, 64)] ]
  }

  /** Search the array for v, from the current block up to the result in merge. */
  function Search(g: Gen, v: Operand, arr: nat, len: nat, negated: bool): (r: (Gen, Operand))
    requires Ok(g)
    ensures After(g, r.0) && Known(r.0, r.1)
  {
    var n, t := |g.blocks|, Temp(g.temps);
    var entry := g.blocks[g.cur] + [Alloca(t, 1), Store(Imm(0), t, Imm(0), 64), Br(n)];
    var res := if negated then g.regs + 7 else g.regs + 6;
    (g.(blocks := g.blocks[g.cur := entry] + SearchBlocks(n, g.regs, t, v, arr, len, negated),
        cur := n + 5, regs := res + 1, temps := g.temps + 1),
     Reg(res))
  }

  function LowerExpr(e: S.Expr, g: Gen): (r: (Gen, Typed))
    requires Ok(g)
    ensures After(g, r.0) && Known(r.0, r.1.op) && r.1.width == S.Rep(e)
    decreases e, 1
  {
    match e
    case IntLit(n) => (g, Typed(Imm(n), 64))
    case BoolLit(b) => (g, Typed(Imm(Flag(b)), 1))
    case Var(x, ty) =>
      var (g1, v) := Define(g, Load(g.regs, Slot(x, S.WidthOf(ty)), Imm(0)));
      (g1, Typed(v, S.WidthOf(ty)))
    case Negate(_) => LowerUnary(e, g)
    case Complement(_) => LowerUnary(e, g)
    case Not(_) => LowerUnary(e, g)
    case Arith(_, _, _) => LowerBinary(e, g)
    case Rel(_, _, _) => LowerBinary(e, g)
    case Logical(_, _, _) => LowerLogical(e, g)
    case OrElse(_, _) => LowerOrElse(e, g)
    case Ternary(_, _, _) => LowerTernary(e, g)
    case Index(_, _, _) => LowerIndex(e, g)
    case Member(_, _, _, _) => LowerMember(e, g)
  }

  function LowerIndex(e: S.Expr, g: Gen): (r: (Gen, Typed))
    requires Ok(g) && e.Index?
    ensures After(g, r.0) && Known(r.0, r.1.op) && r.1.width == S.Rep(e)
    decreases e, 0
  {
    var (g1, iv) := LowerExpr(e.i, g);
    var (g2, idx) := BoundsCheck(g1, iv, e.len);
    var (g3, v) := Define(g2, Load(g2.regs, Slot(e.arr, 64), idx));
    (g3, Typed(v, 64))
  }

  function LowerMember(e: S.Expr, g: Gen): (r: (Gen, Typed))
    requires Ok(g) && e.Member?
    ensures After(g, r.0) && Known(r.0, r.1.op) && r.1.width == S.Rep(e)
    decreases e, 0
  {
    var (g1, v) := LowerExpr(e.e, g);
    var (g2, r) := Search(g1, v.op, e.arr, e.len, e.negated);
    (g2, Typed(r, 64))
  }

  function LowerUnary(e: S.Expr, g: Gen): (r: (Gen, Typed))
    requires Ok(g) && (e.Negate? || e.Complement? || e.Not?)
    ensures After(g, r.0) && Known(r.0, r.1.op) && r.1.width == S.Rep(e)
    decreases e, 0
  {
    var (g1, v) := LowerExpr(e.e, g);
    if e.Not? then
      var (g2, z) := TestZero(g1, Eq, v);
      var (g3, r) := Resize(g2, Typed(z, 1), v.width);
      (g3, Typed(r, v.width))
    else
      var i := if e.Negate? then Binary(g1.regs, Sub, Imm(0), v.op) else Binary(g1.regs, Xor, v.op, Imm(WORD - 1));
      var (g2, r) := Define(g1, i);
      (g2, Typed(r, v.width))
  }

  function LowerBinary(e: S.Expr, g: Gen): (r: (Gen, Typed))
    requires Ok(g) && (e.Arith? || e.Rel?)
    ensures After(g, r.0) && Known(r.0, r.1.op) && r.1.width == S.Rep(e)
    decreases e, 0
  {
    var (g1, a) := LowerExpr(e.l, g);
    var (g2, b0) := LowerExpr(e.r, g1);
    var (g3, b) := Coerce(g2, b0, a.width);
    var i := if e.Arith? then Binary(g3.regs, MachineOp(e.op), a.op, b)
             else ICmp(g3.regs, MachinePred(e.rel), a.op, b, a.width);
    var (g4, v) := Define(g3, i);
    (g4, Typed(v, if e.Arith? then a.width else 1))
  }

  /** `&&` and `||`: the right operand is evaluated in a block of its own, which it may split further;
      the phi's second predecessor is read off after that. */
  function LowerLogical(e: S.Expr, g: Gen): (r: (Gen, Typed))
    requires Ok(g) && e.Logical?
    ensures After(g, r.0) && Known(r.0, r.1.op) && r.1.width == S.Rep(e)
    decreases e, 0
  {
    var (g1, a) := LowerExpr(e.l, g);
    var (g2, lhs) := Truth(g1, a);
    var f := Fork(g2, lhs, e.isAnd);
    var (g3, b) := LowerExpr(e.r, f);
    var (g4, rhs) := Truth(g3, b);
    var (g5, phi) := Join(g4, |g2.blocks| + 1, Imm(Flag(!e.isAnd)), g2.cur, rhs);
    var (g6, v) := Resize(g5, Typed(phi, 1), a.width);
    (g6, Typed(v, a.width))
  }

  function LowerOrElse(e: S.Expr, g: Gen): (r: (Gen, Typed))
    requires Ok(g) && e.OrElse?
    ensures After(g, r.0) && Known(r.0, r.1.op) && r.1.width == S.Rep(e)
    decreases e, 0
  {
    var (g1, a) := LowerExpr(e.l, g);
    var (g2, isZero) := TestZero(g1, Eq, a);
    var f := Fork(g2, isZero, true);
    var (g3, b) := LowerExpr(e.r, f);
    var (g4, phi) := Join(g3, |g2.blocks| + 1, a.op, g2.cur, b.op);
    (g4, Typed(phi, a.width))
  }

  function LowerTernary(e: S.Expr, g: Gen): (r: (Gen, Typed))
    requires Ok(g) && e.Ternary?
    ensures After(g, r.0) && Known(r.0, r.1.op) && r.1.width == S.Rep(e)
    decreases e, 0
  {
    var (g1, a) := LowerExpr(e.c, g);
    var (g2, truth) := TestZero(g1, Ne, a);
    var els, merge := |g2.blocks| + 1, |g2.blocks| + 2;
    var (g3, tv) := LowerExpr(e.t, Fork3(g2, truth));
    var h := Move(Emit(g3, Br(merge)), els);
    assert After(g, h);
    var (g4, fv) := LowerExpr(e.f, h);
    var (g5, phi) := Join(g4, merge, tv.op, g3.cur, fv.op);
    (g5, Typed(phi, tv.width))
  }
}
