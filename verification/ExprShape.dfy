/** The graph stays well formed while an expression is lowered, however deeply its operands split blocks. */
module ExprShape {
  import opened Words
  import opened Cfg
  import opened Lower
  import opened Growth
  import opened Shape
  import S = Source

  lemma TidyThen(f: Gen, g: Gen, h: Gen, pending: set<BlockId>, outer: set<BlockId>)
    requires TidyOpen(f, g, pending, outer) && TidyOpen(g, h, {}, {})
    ensures TidyOpen(f, h, pending, outer)
  {
    TidyTrans(f, g, h, pending, outer, {});
  }

  ghost predicate Ready(g: Gen) {
    Ok(g) && Open(g.blocks[g.cur]) && NoDangling(g.blocks)
  }

  lemma ReadyAfter(f: Gen, g: Gen, pending: set<BlockId>, outer: set<BlockId>)
    requires TidyOpen(f, g, pending, outer)
    ensures Ready(g)
  {
  }

  lemma TestZeroTidy(g: Gen, pred: Pred, v: Typed)
    requires Ready(g) && Known(g, v.op)
    ensures TidyOpen(g, TestZero(g, pred, v).0, {}, {})
  {
    PlainTidy(g, ICmp(g.regs, pred, v.op, Imm(0), v.width));
  }

  lemma TruthTidy(g: Gen, v: Typed)
    requires Ready(g) && Known(g, v.op)
    ensures TidyOpen(g, Truth(g, v).0, {}, {})
  {
    TidyRefl(g);
    TestZeroTidy(g, Ne, v);
  }

  lemma ResizeTidy(g: Gen, v: Typed, width: nat)
    requires Ready(g) && Known(g, v.op)
    ensures TidyOpen(g, Resize(g, v, width).0, {}, {})
    ensures TidyOpen(g, Coerce(g, v, width).0, {}, {})
  {
    TidyRefl(g);
    PlainTidy(g, Cast(g.regs, Trunc, v.op, v.width, width));
    PlainTidy(g, Cast(g.regs, ZExt, v.op, v.width, width));
    PlainTidy(g, Cast(g.regs, SExt, v.op, v.width, width));
  }

  lemma ForkTidy(g: Gen, cond: Operand, rhsOnTrue: bool)
    requires Ready(g)
    ensures var h := Fork(g, cond, rhsOnTrue);
      TidyOpen(g, h, {|g.blocks| + 1}, {}) && Preds(h.blocks, |g.blocks| + 1) == {g.cur}
  {
    hide Preds, Tidy, Emit;
    var rhs, merge := |g.blocks|, |g.blocks| + 1;
    NewBlocksTidy(g, 2);
    var i := if rhsOnTrue then CondBr(cond, rhs, merge) else CondBr(cond, merge, rhs);
    JumpTidy(g, NewBlocks(g, 2), i, rhs, Ids(rhs, 2), {});
    assert Ids(rhs, 2) - {rhs} == {merge};
  }

  lemma Fork3Tidy(g: Gen, cond: Operand)
    requires Ready(g)
    ensures var h := Fork3(g, cond);
      TidyOpen(g, h, {|g.blocks| + 1, |g.blocks| + 2}, {})
      && Preds(h.blocks, |g.blocks| + 1) == {g.cur} && Preds(h.blocks, |g.blocks| + 2) == {}
  {
    hide Preds, Tidy, Emit;
    var thn, els, merge := |g.blocks|, |g.blocks| + 1, |g.blocks| + 2;
    NewBlocksTidy(g, 3);
    JumpTidy(g, NewBlocks(g, 3), CondBr(cond, thn, els), thn, Ids(thn, 3), {});
    assert Ids(thn, 3) - {thn} == {els, merge};
  }

  lemma BoundsCheckTidy(g: Gen, v: Typed, len: nat)
    requires Ready(g) && Known(g, v.op)
    ensures TidyOpen(g, BoundsCheck(g, v, len).0, {}, {})
  {
    if !g.checks {
      TidyRefl(g);
    } else {
      hide Tidy, Fork, Resize, Emit, Define;
      var (g0, idx) := Resize(g, v, 64);
      ResizeTidy(g, v, 64);
      var i := ICmp(g0.regs, Uge, idx, Imm(len), 64);
      PlainTidy(g0, i) by { ReadyAfter(g, g0, {}, {}); }
      var (g1, oob) := Define(g0, i);
      TidyThen(g, g0, g1, {}, {});
      ReadyAfter(g, g1, {}, {});
      TrapTidy(g1, oob);
      TidyThen(g, g1, BoundsCheck(g, v, len).0, {}, {});
    }
  }

  /** The trap block is filled first and left for good; the builder goes on in the other one. */
  lemma TrapTidy(g: Gen, oob: Operand)
    requires Ready(g)
    ensures var f := Fork(g, oob, false);
      var t := Move(f, |g.blocks| + 1);
      TidyOpen(g, Move(Emit(Emit(t, CallTrap), Unreachable), f.cur), {}, {})
  {
    ForkTidy(g, oob, false);
    var f := Fork(g, oob, false);
    var cont, trap := |g.blocks|, |g.blocks| + 1;
    var t := Move(f, trap);
    assert f.blocks[cont] == [] by { ForkGrows(g, oob, false); }
    assert TidyOpen(g, t, {cont}, {});
    PlainTidy(t, CallTrap);
    var t1 := Emit(t, CallTrap);
    TidyThen(g, t, t1, {cont}, {});
    JumpTidy(g, t1, Unreachable, cont, {cont}, {});
    assert {cont} - {cont} == {};
  }

  lemma SearchTidy(g: Gen, v: Operand, arr: nat, len: nat, negated: bool)
    requires Ready(g)
    ensures TidyOpen(g, Search(g, v, arr, len, negated).0, {}, {})
  {
    var h := Search(g, v, arr, len, negated).0;
    var n, t := |g.blocks|, Temp(g.temps);
    var entry := [Alloca(t, 1), Store(Imm(0), t, Imm(0), 64), Br(n)];
    var bs := SearchBlocks(n, g.regs, t, v, arr, len, negated);
    assert h.blocks[g.cur] == g.blocks[g.cur] + entry;
    forall i | 0 <= i < 6 ensures h.blocks[n + i] == bs[i] {}
    SearchClosed(g, v, arr, len, negated);
    SearchEdges(g, v, arr, len, negated);
  }

  lemma SearchClosed(g: Gen, v: Operand, arr: nat, len: nat, negated: bool)
    requires Ready(g)
    ensures var h := Search(g, v, arr, len, negated).0;
      Appends(g, h) && AllClosed(g, h, {}) && Open(h.blocks[h.cur])
  {
    var h := Search(g, v, arr, len, negated).0;
    var n, t := |g.blocks|, Temp(g.temps);
    var entry := [Alloca(t, 1), Store(Imm(0), t, Imm(0), 64), Br(n)];
    var bs := SearchBlocks(n, g.regs, t, v, arr, len, negated);
    var b := h.blocks[g.cur];
    assert b == g.blocks[g.cur] + entry;
    assert b[..|b| - 1] == g.blocks[g.cur] + entry[..2];
    forall i | 0 <= i < 6 ensures h.blocks[n + i] == bs[i] {}
  }

  /** Which block jumps to which in the search loop. */
  lemma SearchEdges(g: Gen, v: Operand, arr: nat, len: nat, negated: bool)
    requires Ready(g)
    ensures var h := Search(g, v, arr, len, negated).0;
      Appends(g, h) && EdgesInside(g, h, {})
  {
    var h := Search(g, v, arr, len, negated).0;
    var n, t := |g.blocks|, Temp(g.temps);
    var entry := [Alloca(t, 1), Store(Imm(0), t, Imm(0), 64), Br(n)];
    var bs := SearchBlocks(n, g.regs, t, v, arr, len, negated);
    assert h.blocks[g.cur] == g.blocks[g.cur] + entry;
    forall i | 0 <= i < 6 ensures h.blocks[n + i] == bs[i] {}
    forall p: nat, b: nat | p < |h.blocks| && Edge(h.blocks, p, b)
      ensures Edge(g.blocks, p, b) || n <= b < n + 6
      ensures b == n + 5 ==> p == n + 3 || p == n + 4
    {
      var k :| 0 <= k < |h.blocks[p]| && b in Targets(h.blocks[p][k]);
      SearchEdge(g, v, arr, len, negated, p, k, b);
    }
    forall b: nat | b < n ensures Preds(h.blocks, b) == Preds(g.blocks, b) {
      EdgesGrow(h.blocks, g.blocks, b);
      forall p | p in Preds(h.blocks, b) ensures p in Preds(g.blocks, b) {}
    }
    assert NoDangling(h.blocks) by {
      forall b | b >= |h.blocks| ensures Preds(h.blocks, b) == {} {
        assert Preds(g.blocks, b) == {};
        assert Preds(h.blocks, b) <= Preds(g.blocks, b);
      }
    }
    SearchPhi(g, v, arr, len, negated);
  }

  lemma SearchEdge(g: Gen, v: Operand, arr: nat, len: nat, negated: bool, p: BlockId, k: nat, b: BlockId)
    requires Ready(g)
    requires var h := Search(g, v, arr, len, negated).0;
      p < |h.blocks| && k < |h.blocks[p]| && b in Targets(h.blocks[p][k])
    ensures Edge(g.blocks, p, b) || |g.blocks| <= b < |g.blocks| + 6
    ensures b == |g.blocks| + 5 ==> p == |g.blocks| + 3 || p == |g.blocks| + 4
  {
    var h := Search(g, v, arr, len, negated).0;
    var n, t := |g.blocks|, Temp(g.temps);
    var entry := [Alloca(t, 1), Store(Imm(0), t, Imm(0), 64), Br(n)];
    var bs := SearchBlocks(n, g.regs, t, v, arr, len, negated);
    if p < n {
      if p != g.cur {
        assert h.blocks[p] == g.blocks[p];
      } else {
        assert h.blocks[p] == g.blocks[p] + entry;
      }
      assert b >= n ==> p !in Preds(g.blocks, b);
    } else {
      assert h.blocks[p] == bs[p - n];
    }
  }

  lemma SearchPhi(g: Gen, v: Operand, arr: nat, len: nat, negated: bool)
    requires Ready(g)
    requires var h := Search(g, v, arr, len, negated).0;
      forall p: nat, b: nat | p < |h.blocks| && Edge(h.blocks, p, b) :: b == |g.blocks| + 5 ==> p == |g.blocks| + 3 || p == |g.blocks| + 4
    ensures var h := Search(g, v, arr, len, negated).0;
      forall b | |g.blocks| <= b < |h.blocks| :: PhiExact(h.blocks, b)
  {
    var h := Search(g, v, arr, len, negated).0;
    var n, t := |g.blocks|, Temp(g.temps);
    var bs := SearchBlocks(n, g.regs, t, v, arr, len, negated);
    forall i | 0 <= i < 6 ensures h.blocks[n + i] == bs[i] {}
    var inc := [(Imm(1), n + 3), (Imm(0), n + 4)];
    assert Sources(inc) == {n + 3, n + 4} by {
      assert inc[0].1 == n + 3 && inc[1].1 == n + 4;
    }
    assert Preds(h.blocks, n + 5) == {n + 3, n + 4} by {
      assert h.blocks[n + 3][0] == Br(n + 5) && h.blocks[n + 4][0] == Br(n + 5);
      assert Edge(h.blocks, n + 3, n + 5) && Edge(h.blocks, n + 4, n + 5);
    }
    forall b | n <= b < |h.blocks| ensures PhiExact(h.blocks, b) {
      assert h.blocks[b] == bs[b - n];
    }
  }

  // ---- expressions ----

  lemma {:induction false} ExprTidy(e: S.Expr, g: Gen)
    requires Ok(g) && Ready(g)
    ensures TidyOpen(g, LowerExpr(e, g).0, {}, {})
    decreases e, 3
  {
    hide Tidy, Open, NoDangling;
    ExprCases(e, g, LowerExpr(e, g));
  }

  lemma {:induction false} ExprCases(e: S.Expr, g: Gen, r: (Gen, Typed))
    requires Ok(g) && Ready(g) && r == LowerExpr(e, g)
    ensures TidyOpen(g, r.0, {}, {})
    decreases e, 2
  {
    hide LowerUnary, LowerBinary, LowerLogical, LowerOrElse, LowerTernary, LowerIndex, LowerMember, Tidy;
    match e
    case IntLit(_) => TidyRefl(g);
    case BoolLit(_) => TidyRefl(g);
    case Var(x, ty) => PlainTidy(g, Load(g.regs, Slot(x, S.WidthOf(ty)), Imm(0)));
    case Negate(_) => UnaryTidy(e, g);
    case Complement(_) => UnaryTidy(e, g);
    case Not(_) => UnaryTidy(e, g);
    case Arith(_, _, _) => BinaryTidy(e, g);
    case Rel(_, _, _) => BinaryTidy(e, g);
    case Logical(_, _, _) => LogicalTidy(e, g);
    case OrElse(_, _) => OrElseTidy(e, g);
    case Ternary(_, _, _) => TernaryTidy(e, g);
    case Index(_, _, _) => IndexTidy(e, g);
    case Member(_, _, _, _) => MemberTidy(e, g);
  }

  lemma {:induction false} UnaryTidy(e: S.Expr, g: Gen)
    requires Ok(g) && Ready(g) && (e.Negate? || e.Complement? || e.Not?)
    ensures TidyOpen(g, LowerUnary(e, g).0, {}, {})
    decreases e, 0
  {
    hide LowerExpr, TidyOpen, TestZero, Resize, Ready;
    var (g1, v) := LowerExpr(e.e, g);
    ExprTidy(e.e, g);
    ReadyAfter(g, g1, {}, {});
    if e.Not? {
      var (g2, z) := TestZero(g1, Eq, v);
      TestZeroTidy(g1, Eq, v);
      TidyThen(g, g1, g2, {}, {});
      ReadyAfter(g, g2, {}, {});
      ResizeTidy(g2, Typed(z, 1), v.width);
      TidyThen(g, g2, Resize(g2, Typed(z, 1), v.width).0, {}, {});
    } else {
      var i := if e.Negate? then Binary(g1.regs, Sub, Imm(0), v.op) else Binary(g1.regs, Xor, v.op, Imm(WORD - 1));
      DefineTidy(g1, i);
      TidyThen(g, g1, Define(g1, i).0, {}, {});
    }
  }

  lemma DefineTidy(g: Gen, i: Instr)
    requires Ok(g) && Ready(g) && !IsTerminator(i) && !i.Phi?
    ensures TidyOpen(g, Define(g, i).0, {}, {}) && TidyOpen(g, Emit(g, i), {}, {})
  {
    PlainTidy(g, i);
  }

  lemma {:induction false} BinaryTidy(e: S.Expr, g: Gen)
    requires Ok(g) && Ready(g) && (e.Arith? || e.Rel?)
    ensures TidyOpen(g, LowerBinary(e, g).0, {}, {})
    decreases e, 0
  {
    hide LowerExpr, TidyOpen, Coerce, Ready, Define;
    var (g1, a) := LowerExpr(e.l, g);
    ExprTidy(e.l, g);
    ReadyAfter(g, g1, {}, {});
    var (g2, b0) := LowerExpr(e.r, g1);
    ExprTidy(e.r, g1);
    TidyThen(g, g1, g2, {}, {});
    ReadyAfter(g, g2, {}, {});
    var (g3, b) := Coerce(g2, b0, a.width);
    ResizeTidy(g2, b0, a.width);
    TidyThen(g, g2, g3, {}, {});
    ReadyAfter(g, g3, {}, {});
    var i := if e.Arith? then Binary(g3.regs, MachineOp(e.op), a.op, b)
             else ICmp(g3.regs, MachinePred(e.rel), a.op, b, a.width);
    DefineTidy(g3, i);
    TidyThen(g, g3, Define(g3, i).0, {}, {});
  }

  /** The right operand of a short-circuit operator, from the fork up to where it leaves for merge. */
  lemma {:induction false} RhsTidy(e: S.Expr, g: Gen, cond: Operand, rhsOnTrue: bool)
    requires Ok(g) && Ready(g)
    ensures var f := Fork(g, cond, rhsOnTrue);
      var (h, v) := LowerExpr(e, f);
      TidyOpen(g, h, {|g.blocks| + 1}, {}) && Preds(h.blocks, |g.blocks| + 1) == {g.cur} && h.cur != g.cur
    decreases e, 4
  {
    hide LowerExpr, Fork, Open, PhiExact, Preds, NoDangling;
    var f := Fork(g, cond, rhsOnTrue);
    ForkTidy(g, cond, rhsOnTrue);
    ReadyAfter(g, f, {|g.blocks| + 1}, {});
    var (h, v) := LowerExpr(e, f);
    ExprTidy(e, f);
    TidyThen(g, f, h, {|g.blocks| + 1}, {});
    assert Preds(h.blocks, |g.blocks| + 1) == Preds(f.blocks, |g.blocks| + 1);
  }

  lemma {:induction false} LogicalTidy(e: S.Expr, g: Gen)
    requires Ok(g) && Ready(g) && e.Logical?
    ensures TidyOpen(g, LowerLogical(e, g).0, {}, {})
    decreases e, 0
  {
    hide LowerExpr, TidyOpen, Truth, Fork, Join, Resize, Ready, Preds;
    var (g1, a) := LowerExpr(e.l, g);
    ExprTidy(e.l, g);
    ReadyAfter(g, g1, {}, {});
    var (g2, lhs) := Truth(g1, a);
    TruthTidy(g1, a);
    TidyThen(g, g1, g2, {}, {});
    ReadyAfter(g, g2, {}, {});
    var f := Fork(g2, lhs, e.isAnd);
    var (g3, b) := LowerExpr(e.r, f);
    RhsTidy(e.r, g2, lhs, e.isAnd);
    var merge := |g2.blocks| + 1;
    ReadyAfter(g2, g3, {merge}, {});
    var (g4, rhs) := Truth(g3, b);
    TruthTidy(g3, b);
    TidyThen(g2, g3, g4, {merge}, {});
    PredsKept(g3, g4, merge);
    var v0 := Imm(Flag(!e.isAnd));
    var (g5, phi) := Join(g4, merge, v0, g2.cur, rhs);
    JoinTidy(g2, g4, merge, v0, g2.cur, rhs, {merge});
    assert {merge} - {merge} == {};
    TidyThen(g, g2, g5, {}, {});
    ReadyAfter(g, g5, {}, {});
    ResizeTidy(g5, Typed(phi, 1), a.width);
    TidyThen(g, g5, Resize(g5, Typed(phi, 1), a.width).0, {}, {});
  }

  lemma PredsKept(g: Gen, h: Gen, b: BlockId)
    requires TidyOpen(g, h, {}, {}) && b < |g.blocks|
    ensures Preds(h.blocks, b) == Preds(g.blocks, b)
  {
  }

  lemma {:induction false} OrElseTidy(e: S.Expr, g: Gen)
    requires Ok(g) && Ready(g) && e.OrElse?
    ensures TidyOpen(g, LowerOrElse(e, g).0, {}, {})
    decreases e, 0
  {
    hide LowerExpr, TidyOpen, TestZero, Fork, Join, Ready, Preds;
    var (g1, a) := LowerExpr(e.l, g);
    ExprTidy(e.l, g);
    ReadyAfter(g, g1, {}, {});
    var (g2, z) := TestZero(g1, Eq, a);
    TestZeroTidy(g1, Eq, a);
    TidyThen(g, g1, g2, {}, {});
    ReadyAfter(g, g2, {}, {});
    var f := Fork(g2, z, true);
    var (g3, b) := LowerExpr(e.r, f);
    RhsTidy(e.r, g2, z, true);
    var merge := |g2.blocks| + 1;
    JoinTidy(g2, g3, merge, a.op, g2.cur, b.op, {merge});
    assert {merge} - {merge} == {};
    TidyThen(g, g2, Join(g3, merge, a.op, g2.cur, b.op).0, {}, {});
  }

  lemma {:induction false} TernaryTidy(e: S.Expr, g: Gen)
    requires Ok(g) && Ready(g) && e.Ternary?
    ensures TidyOpen(g, LowerTernary(e, g).0, {}, {})
    decreases e, 1
  {
    hide LowerExpr, TidyOpen, TestZero, Fork3, Join, Ready, Preds, Emit;
    var (g1, a) := LowerExpr(e.c, g);
    ExprTidy(e.c, g);
    ReadyAfter(g, g1, {}, {});
    var (g2, z) := TestZero(g1, Ne, a);
    TestZeroTidy(g1, Ne, a);
    TidyThen(g, g1, g2, {}, {});
    ReadyAfter(g, g2, {}, {});
    BranchesTidy(e, g2, z);
    TernaryStages(g2, z, e);
    var els, merge := |g2.blocks| + 1, |g2.blocks| + 2;
    var (g3, tv) := LowerExpr(e.t, Fork3(g2, z));
    var h := Move(Emit(g3, Br(merge)), els);
    var (g4, fv) := LowerExpr(e.f, h);
    TidyThen(g, g2, Join(g4, merge, tv.op, g3.cur, fv.op).0, {}, {});
  }

  lemma TernaryStages(g: Gen, z: Operand, e: S.Expr)
    requires Ok(g) && e.Ternary?
    ensures Ok(Fork3(g, z)) && |LowerExpr(e.t, Fork3(g, z)).0.blocks| >= |g.blocks| + 3
  {
  }

  lemma EmptyPending(f: Gen, g: Gen, pending: set<BlockId>, b: BlockId)
    requires TidyOpen(f, g, pending, {}) && b in pending
    ensures |f.blocks| <= b < |g.blocks| && NoPhi(g.blocks[b]) && g.cur != b
  {
  }

  lemma {:induction false} BranchesTidy(e: S.Expr, g: Gen, z: Operand)
    requires Ok(g) && Ready(g) && e.Ternary?
    ensures var els, merge := |g.blocks| + 1, |g.blocks| + 2;
      var (g3, tv) := LowerExpr(e.t, Fork3(g, z));
      var (g4, fv) := LowerExpr(e.f, Move(Emit(g3, Br(merge)), els));
      TidyOpen(g, Join(g4, merge, tv.op, g3.cur, fv.op).0, {}, {})
    decreases e, 0
  {
    hide LowerExpr, Fork3, Join, Ready, Preds, Emit, TidyOpen;
    var els, merge := |g.blocks| + 1, |g.blocks| + 2;
    var f := Fork3(g, z);
    Fork3Tidy(g, z);
    ReadyAfter(g, f, {els, merge}, {});
    var (g3, tv) := LowerExpr(e.t, f);
    ExprTidy(e.t, f);
    TidyThen(g, f, g3, {els, merge}, {});
    PredsKept(f, g3, merge);
    var h := Move(Emit(g3, Br(merge)), els);
    EmptyPending(g, g3, {els, merge}, merge);
    JumpTidy(g, g3, Br(merge), els, {els, merge}, {});
    assert {els, merge} - {els} == {merge};
    assert Preds(h.blocks, merge) == {g3.cur};
    ReadyAfter(g, h, {merge}, {});
    var (g4, fv) := LowerExpr(e.f, h);
    ExprTidy(e.f, h);
    TidyThen(g, h, g4, {merge}, {});
    PredsKept(h, g4, merge);
    JoinTidy(g, g4, merge, tv.op, g3.cur, fv.op, {merge});
    assert {merge} - {merge} == {};
  }

  lemma {:induction false} IndexTidy(e: S.Expr, g: Gen)
    requires Ok(g) && Ready(g) && e.Index?
    ensures TidyOpen(g, LowerIndex(e, g).0, {}, {})
    decreases e, 0
  {
    hide LowerExpr, TidyOpen, BoundsCheck, Ready, Define;
    var (g1, iv) := LowerExpr(e.i, g);
    ExprTidy(e.i, g);
    ReadyAfter(g, g1, {}, {});
    var (g2, idx) := BoundsCheck(g1, iv, e.len);
    BoundsCheckTidy(g1, iv, e.len);
    TidyThen(g, g1, g2, {}, {});
    ReadyAfter(g, g2, {}, {});
    var i := Load(g2.regs, Slot(e.arr, 64), idx);
    DefineTidy(g2, i);
    TidyThen(g, g2, Define(g2, i).0, {}, {});
  }

  lemma {:induction false} MemberTidy(e: S.Expr, g: Gen)
    requires Ok(g) && Ready(g) && e.Member?
    ensures TidyOpen(g, LowerMember(e, g).0, {}, {})
    decreases e, 0
  {
    hide LowerExpr, TidyOpen, Search, Ready;
    var (g1, v) := LowerExpr(e.e, g);
    ExprTidy(e.e, g);
    ReadyAfter(g, g1, {}, {});
    SearchTidy(g1, v.op, e.arr, e.len, e.negated);
    TidyThen(g, g1, Search(g1, v.op, e.arr, e.len, e.negated).0, {}, {});
  }
}
