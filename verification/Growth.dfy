/** Lowering an expression only appends: to the current block, and to blocks it adds itself. */
module Growth {
  import opened Words
  import opened Cfg
  import opened Lower
  import S = Source

  /** From g to h only g's current block was extended; every other block of g is untouched. */
  ghost predicate Grows(g: Gen, h: Gen) {
    && Ok(g) && After(g, h)
    && g.blocks[g.cur] <= h.blocks[g.cur]
    && forall b | 0 <= b < |g.blocks| && b != g.cur :: h.blocks[b] == g.blocks[b]
  }

  lemma Trans(f: Gen, g: Gen, h: Gen)
    requires Grows(f, g) && Grows(g, h)
    ensures Grows(f, h)
  {
  }

  lemma DefineGrows(g: Gen, i: Instr)
    requires Ok(g)
    ensures Grows(g, Emit(g, i)) && Grows(g, Define(g, i).0)
  {
  }

  lemma TestZeroGrows(g: Gen, pred: Pred, v: Typed)
    requires Ok(g) && Known(g, v.op)
    ensures Grows(g, TestZero(g, pred, v).0)
  {
  }

  lemma TruthGrows(g: Gen, v: Typed)
    requires Ok(g) && Known(g, v.op)
    ensures Grows(g, Truth(g, v).0)
  {
  }

  lemma ResizeGrows(g: Gen, v: Typed, width: nat)
    requires Ok(g) && Known(g, v.op)
    ensures Grows(g, Resize(g, v, width).0) && Grows(g, Coerce(g, v, width).0)
  {
  }

  lemma ForkGrows(g: Gen, cond: Operand, rhsOnTrue: bool)
    requires Ok(g)
    ensures var h := Fork(g, cond, rhsOnTrue);
      Grows(g, h) && h.blocks[h.cur] == [] && h.blocks[h.cur + 1] == []
  {
  }

  lemma Fork3Grows(g: Gen, cond: Operand)
    requires Ok(g)
    ensures var h := Fork3(g, cond);
      Grows(g, h) && h.blocks[h.cur] == [] && h.blocks[h.cur + 1] == [] && h.blocks[h.cur + 2] == []
  {
  }

  /** Code that extends what h holds extends what g held. */
  lemma ExtDown(code: seq<Block>, g: Gen, h: Gen)
    requires Grows(g, h) && Ext(code, h.blocks)
    ensures Ext(code, g.blocks)
  {
    forall b | 0 <= b < |g.blocks| ensures g.blocks[b] <= code[b] {
      assert g.blocks[b] <= h.blocks[b] <= code[b];
    }
  }

  lemma JoinDown(code: seq<Block>, g: Gen, merge: BlockId, v0: Operand, from0: BlockId, v1: Operand)
    requires Ok(g) && merge < |g.blocks| && Ext(code, Join(g, merge, v0, from0, v1).0.blocks)
    ensures Ext(code, g.blocks)
  {
    var h := Join(g, merge, v0, from0, v1).0;
    forall b | 0 <= b < |g.blocks| ensures g.blocks[b] <= code[b] {
      assert g.blocks[b] <= h.blocks[b] <= code[b];
    }
  }

  /** Joining at a block that is new since f. */
  lemma JoinGrows(f: Gen, g: Gen, merge: BlockId, v0: Operand, from0: BlockId, v1: Operand)
    requires Grows(f, g) && |f.blocks| <= merge < |g.blocks|
    ensures Grows(f, Join(g, merge, v0, from0, v1).0)
  {
  }

  lemma BoundsCheckGrows(g: Gen, v: Typed, len: nat)
    requires Ok(g) && Known(g, v.op)
    ensures Grows(g, BoundsCheck(g, v, len).0)
  {
  }

  lemma SearchGrows(g: Gen, v: Operand, arr: nat, len: nat, negated: bool)
    requires Ok(g)
    ensures Grows(g, Search(g, v, arr, len, negated).0)
  {
  }

  lemma {:induction false} ExprGrows(e: S.Expr, g: Gen)
    requires Ok(g)
    ensures Grows(g, LowerExpr(e, g).0)
    decreases e, 2
  {
    ExprCases(e, g, LowerExpr(e, g));
  }

  lemma {:induction false} ExprCases(e: S.Expr, g: Gen, r: (Gen, Typed))
    requires Ok(g) && r == LowerExpr(e, g)
    ensures Grows(g, r.0)
    decreases e, 1
  {
    hide LowerUnary, LowerBinary, LowerLogical, LowerOrElse, LowerTernary, LowerIndex, LowerMember;
    match e
    case IntLit(_) =>
    case BoolLit(_) =>
    case Var(x, ty) => DefineGrows(g, Load(g.regs, Slot(x, S.WidthOf(ty)), Imm(0)));
    case Negate(_) => UnaryGrows(e, g);
    case Complement(_) => UnaryGrows(e, g);
    case Not(_) => UnaryGrows(e, g);
    case Arith(_, _, _) => BinaryGrows(e, g);
    case Rel(_, _, _) => BinaryGrows(e, g);
    case Logical(_, _, _) => LogicalGrows(e, g);
    case OrElse(_, _) => OrElseGrows(e, g);
    case Ternary(_, _, _) => TernaryGrows(e, g);
    case Index(_, _, _) => IndexGrows(e, g);
    case Member(_, _, _, _) => MemberGrows(e, g);
  }

  lemma {:induction false} UnaryGrows(e: S.Expr, g: Gen)
    requires Ok(g) && (e.Negate? || e.Complement? || e.Not?)
    ensures Grows(g, LowerUnary(e, g).0)
    decreases e, 0
  {
    var (g1, v) := LowerExpr(e.e, g);
    ExprGrows(e.e, g);
    if e.Not? {
      var (g2, z) := TestZero(g1, Eq, v);
      TestZeroGrows(g1, Eq, v);
      Trans(g, g1, g2);
      ResizeGrows(g2, Typed(z, 1), v.width);
      Trans(g, g2, LowerUnary(e, g).0);
    } else {
      Trans(g, g1, LowerUnary(e, g).0);
    }
  }

  lemma {:induction false} BinaryGrows(e: S.Expr, g: Gen)
    requires Ok(g) && (e.Arith? || e.Rel?)
    ensures Grows(g, LowerBinary(e, g).0)
    decreases e, 0
  {
    var (g1, a) := LowerExpr(e.l, g);
    ExprGrows(e.l, g);
    var (g2, b0) := LowerExpr(e.r, g1);
    ExprGrows(e.r, g1);
    Trans(g, g1, g2);
    var (g3, b) := Coerce(g2, b0, a.width);
    ResizeGrows(g2, b0, a.width);
    Trans(g, g2, g3);
    Trans(g, g3, LowerBinary(e, g).0);
  }

  lemma {:induction false} LogicalGrows(e: S.Expr, g: Gen)
    requires Ok(g) && e.Logical?
    ensures Grows(g, LowerLogical(e, g).0)
    decreases e, 0
  {
    hide LowerExpr, Truth, Resize, Fork, Join, Grows;
    var (g1, a) := LowerExpr(e.l, g);
    ExprGrows(e.l, g);
    var (g2, lhs) := Truth(g1, a);
    TruthGrows(g1, a);
    Trans(g, g1, g2);
    var f := Fork(g2, lhs, e.isAnd);
    ForkGrows(g2, lhs, e.isAnd);
    Trans(g, g2, f);
    var (g3, b) := LowerExpr(e.r, f);
    ExprGrows(e.r, f);
    Trans(g, f, g3);
    var (g4, rhs) := Truth(g3, b);
    TruthGrows(g3, b);
    Trans(g, g3, g4);
    var (g5, phi) := Join(g4, |g2.blocks| + 1, Imm(Flag(!e.isAnd)), g2.cur, rhs);
    JoinGrows(g, g4, |g2.blocks| + 1, Imm(Flag(!e.isAnd)), g2.cur, rhs);
    assert Ok(g5) && Known(g5, phi);
    ResizeGrows(g5, Typed(phi, 1), a.width);
    Trans(g, g5, LowerLogical(e, g).0);
  }

  lemma {:induction false} OrElseGrows(e: S.Expr, g: Gen)
    requires Ok(g) && e.OrElse?
    ensures Grows(g, LowerOrElse(e, g).0)
    decreases e, 0
  {
    var (g1, a) := LowerExpr(e.l, g);
    ExprGrows(e.l, g);
    hide LowerExpr, Fork, Join, TestZero, Grows;
    var (g2, isZero) := TestZero(g1, Eq, a);
    TestZeroGrows(g1, Eq, a);
    Trans(g, g1, g2);
    var f := Fork(g2, isZero, true);
    ForkGrows(g2, isZero, true);
    Trans(g, g2, f);
    var (g3, b) := LowerExpr(e.r, f);
    ExprGrows(e.r, f);
    Trans(g, f, g3);
    JoinGrows(g, g3, |g2.blocks| + 1, a.op, g2.cur, b.op);
  }

  lemma {:induction false} TernaryGrows(e: S.Expr, g: Gen)
    requires Ok(g) && e.Ternary?
    ensures Grows(g, LowerTernary(e, g).0)
    decreases e, 0
  {
    var (g1, a) := LowerExpr(e.c, g);
    ExprGrows(e.c, g);
    var (g2, truth) := TestZero(g1, Ne, a);
    TestZeroGrows(g1, Ne, a);
    Trans(g, g1, g2);
    var f := Fork3(g2, truth);
    Fork3Grows(g2, truth);
    var (g3, tv) := LowerExpr(e.t, f);
    ExprGrows(e.t, f);
    Trans(g2, f, g3);
    var merge := |g2.blocks| + 2;
    var h := Move(Emit(g3, Br(merge)), |g2.blocks| + 1);
    assert Grows(g2, h);
    var (g4, fv) := LowerExpr(e.f, h);
    ExprGrows(e.f, h);
    Trans(g2, h, g4);
    JoinGrows(g2, g4, merge, tv.op, g3.cur, fv.op);
    Trans(g, g2, LowerTernary(e, g).0);
  }

  lemma {:induction false} IndexGrows(e: S.Expr, g: Gen)
    requires Ok(g) && e.Index?
    ensures Grows(g, LowerIndex(e, g).0)
    decreases e, 0
  {
    var (g1, iv) := LowerExpr(e.i, g);
    ExprGrows(e.i, g);
    var (g2, idx) := BoundsCheck(g1, iv, e.len);
    BoundsCheckGrows(g1, iv, e.len);
    Trans(g, g1, g2);
    Trans(g, g2, LowerIndex(e, g).0);
  }

  lemma {:induction false} MemberGrows(e: S.Expr, g: Gen)
    requires Ok(g) && e.Member?
    ensures Grows(g, LowerMember(e, g).0)
    decreases e, 0
  {
    var (g1, v) := LowerExpr(e.e, g);
    ExprGrows(e.e, g);
    SearchGrows(g1, v.op, e.arr, e.len, e.negated);
    Trans(g, g1, LowerMember(e, g).0);
  }
}
