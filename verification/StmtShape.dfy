/** The graph stays well formed while statements are lowered: break, continue and fallthrough jump to blocks that
    have no phi, every block left behind has exactly one terminator, and the loop stack is restored. */
module StmtShape {
  import opened Words
  import opened Cfg
  import opened Lower
  import opened Statements
  import opened Growth
  import opened Shape
  import opened ExprShape
  import S = Source

  function Top(g: Gen): LoopTarget
    requires |g.loops| > 0
  {
    g.loops[|g.loops| - 1]
  }

  /** The jumps the context allows have a target block. */
  predicate HasTargets(g: Gen, ctx: S.Ctx) {
    && |g.loops| == ctx.depth
    && (ctx.canBreak || ctx.canContinue ==> ctx.depth > 0)
    && (ctx.canContinue ==> Top(g).continueBb.To?)
    && (ctx.canFall ==> g.fall.To?)
  }

  function Outer(g: Gen, ctx: S.Ctx): set<BlockId>
    requires HasTargets(g, ctx)
  {
    (if ctx.canBreak then {Top(g).breakBb} else {})
    + (if ctx.canContinue then {Top(g).continueBb.bb} else {})
    + (if ctx.canFall then {g.fall.bb} else {})
  }

  /** The targets exist, are not the current block, and hold no phi. */
  ghost predicate TargetsOk(g: Gen, ctx: S.Ctx) {
    HasTargets(g, ctx) && forall b | b in Outer(g, ctx) :: b < |g.blocks| && b != g.cur && NoPhi(g.blocks[b])
  }

  /** The state after lowering a statement that exits or not. */
  ghost predicate Lowered(g: Gen, ctx: S.Ctx, h: Gen, exits: bool, hasSwitch: bool)
    requires HasTargets(g, ctx)
  {
    && Tidy(g, h, {}, Outer(g, ctx))
    && (if exits then Closed(h.blocks[h.cur]) else Open(h.blocks[h.cur]))
    && h.loops == g.loops
    && h.fall == if hasSwitch then NoTarget else g.fall
  }

  // ---- pieces ----

  /** Only blocks and position matter. */
  lemma TidyIgnores(f: Gen, g: Gen, g': Gen, pending: set<BlockId>, outer: set<BlockId>)
    requires g'.blocks == g.blocks && g'.cur == g.cur
    ensures Tidy(f, g, pending, outer) ==> Tidy(f, g', pending, outer)
    ensures TidyOpen(f, g, pending, outer) ==> TidyOpen(f, g', pending, outer)
  {
  }

  /** Work without outside jumps is as good as work with some allowed. */
  lemma TidyWider(f: Gen, g: Gen, pending: set<BlockId>, outer: set<BlockId>)
    requires Tidy(f, g, pending, {}) && forall b | b in outer :: b < |f.blocks|
    ensures Tidy(f, g, pending, outer)
  {
  }

  /** End the current block by a jump to outer blocks, without going on anywhere. */
  lemma ExitTidy(g: Gen, i: Instr, outer: set<BlockId>)
    requires Ready(g) && IsTerminator(i) && Targets(i) <= outer
    requires forall b | b in outer :: b < |g.blocks|
    ensures Tidy(g, Emit(g, i), {}, outer) && Closed(Emit(g, i).blocks[g.cur])
  {
    EmitClosed(g, i);
    forall b: nat ensures Preds(Emit(g, i).blocks, b) == Preds(g.blocks, b) + if b in Targets(i) then {g.cur} else {} {
      EmitEdges(g, i, b);
    }
    var h := Emit(g, i);
    assert h.blocks[g.cur] == g.blocks[g.cur] + [i];
    assert NoDangling(h.blocks) by {
      forall b | b >= |h.blocks| ensures Preds(h.blocks, b) == {} { assert Preds(g.blocks, b) == {}; }
    }
  }

  /** End the current block with a jump to bb unless it has ended already, and go on in a pending block. */
  lemma LeaveTidy(f: Gen, g: Gen, bb: BlockId, to: BlockId, pending: set<BlockId>, outer: set<BlockId>)
    requires Tidy(f, g, pending, outer) && (Open(g.blocks[g.cur]) || Closed(g.blocks[g.cur]))
    requires to in pending && bb < |g.blocks| && (bb in outer || (|f.blocks| <= bb && NoPhi(g.blocks[bb])))
    ensures TidyOpen(f, Move(Leave(g, bb), to), pending - {to}, outer)
  {
    if Terminated(g.blocks[g.cur]) {
      assert Closed(g.blocks[g.cur]) by { OpenOrClosed(g.blocks[g.cur]); }
      MoveTidy(f, g, to, pending, outer);
    } else {
      JumpTidy(f, g, Br(bb), to, pending, outer);
    }
  }

  lemma OpenOrClosed(b: Block)
    requires Terminated(b) && (Open(b) || Closed(b))
    ensures Closed(b)
  {
    assert IsTerminator(b[|b| - 1]);
  }

  lemma MoveTidy(f: Gen, g: Gen, to: BlockId, pending: set<BlockId>, outer: set<BlockId>)
    requires Tidy(f, g, pending, outer) && Closed(g.blocks[g.cur]) && to in pending
    ensures TidyOpen(f, Move(g, to), pending - {to}, outer)
  {
    var h := Move(g, to);
    assert h.blocks[to] == [];
  }

  lemma UpdateTidy(g: Gen, how: S.AssignOp, region: Region, index: Operand, v: Typed)
    requires Ready(g) && Known(g, v.op)
    ensures TidyOpen(g, Update(g, how, region, index, v).0, {}, {})
  {
    TidyRefl(g);
    if how.Compound? {
      var r := g.regs;
      PlainAllTidy(g, [Load(r, region, index), Binary(r + 1, MachineOp(how.op), Reg(r), v.op)], 2);
    }
  }

  // ---- simple statements ----

  lemma StraightTidy(st: S.Stmt, g: Gen)
    requires Ready(g) && (st.ExprStmt? || st.Declare? || st.Assign? || st.AssignElem?)
    ensures TidyOpen(g, LowerStmt(st, g), {}, {}) && After(g, LowerStmt(st, g))
  {
    match st
    case ExprStmt(e) => ExprTidy(e, g);
    case Declare(_, _, _) => DeclareTidy(st, g);
    case Assign(_, _, _, _) => AssignTidy(st, g);
    case AssignElem(_, _, _, _, _) => AssignElemTidy(st, g);
    case _ =>
  }

  lemma DeclareTidy(st: S.Stmt, g: Gen)
    requires Ready(g) && st.Declare?
    ensures TidyOpen(g, LowerStmt(st, g), {}, {}) && After(g, LowerStmt(st, g))
  {
    hide TidyOpen, LowerExpr, Coerce, Ready, EmitAll;
    ReadyOk(g);
    var x, width := Slot(st.x, S.WidthOf(st.ty)), S.WidthOf(st.ty);
    var ins := [Alloca(x, 1), Store(Imm(0), x, Imm(0), width)];
    var g1 := EmitAll(g, ins, 0);
    PlainTidyAll(g, ins, 0);
    ReadyAfter(g, g1, {}, {});
    var (g2, v) := LowerExpr(st.e, g1);
    ExprTidy(st.e, g1);
    TidyThen(g, g1, g2, {}, {});
    ReadyAfter(g, g2, {}, {});
    var (g3, w) := Coerce(g2, v, S.WidthOf(st.ty));
    ResizeTidy(g2, v, S.WidthOf(st.ty));
    TidyThen(g, g2, g3, {}, {});
    ReadyAfter(g, g3, {}, {});
    DefineTidy(g3, Store(w, x, Imm(0), width));
    TidyThen(g, g3, Emit(g3, Store(w, x, Imm(0), width)), {}, {});
  }

  lemma PlainTidyAll(g: Gen, ins: seq<Instr>, n: nat)
    requires Ready(g) && forall k | 0 <= k < |ins| :: !IsTerminator(ins[k]) && !ins[k].Phi?
    ensures TidyOpen(g, EmitAll(g, ins, n), {}, {})
  {
    PlainAllTidy(g, ins, n);
  }

  lemma ReadyOk(g: Gen)
    requires Ready(g)
    ensures Ok(g)
  {
  }

  lemma AssignTidy(st: S.Stmt, g: Gen)
    requires Ready(g) && st.Assign?
    ensures TidyOpen(g, LowerStmt(st, g), {}, {}) && After(g, LowerStmt(st, g))
  {
    hide TidyOpen, LowerExpr, Update, Ready;
    ReadyOk(g);
    var x := Slot(st.x, S.WidthOf(st.ty));
    var (g1, v) := LowerExpr(st.e, g);
    ExprTidy(st.e, g);
    ReadyAfter(g, g1, {}, {});
    var (g2, w) := Update(g1, st.how, x, Imm(0), v);
    UpdateTidy(g1, st.how, x, Imm(0), v);
    TidyThen(g, g1, g2, {}, {});
    ReadyAfter(g, g2, {}, {});
    DefineTidy(g2, Store(w, x, Imm(0), v.width));
    TidyThen(g, g2, Emit(g2, Store(w, x, Imm(0), v.width)), {}, {});
  }

  lemma AssignElemTidy(st: S.Stmt, g: Gen)
    requires Ready(g) && st.AssignElem?
    ensures TidyOpen(g, LowerAssignElem(st, g), {}, {}) && After(g, LowerAssignElem(st, g))
  {
    hide TidyOpen, LowerExpr, Update, Ready, BoundsCheck;
    ReadyOk(g);
    var x := Slot(st.arr, 64);
    var (g1, v) := LowerExpr(st.e, g);
    ExprTidy(st.e, g);
    ReadyAfter(g, g1, {}, {});
    var (g2, iv) := LowerExpr(st.i, g1);
    ExprTidy(st.i, g1);
    TidyThen(g, g1, g2, {}, {});
    ReadyAfter(g, g2, {}, {});
    var (g3, idx) := BoundsCheck(g2, iv, st.len);
    BoundsCheckTidy(g2, iv, st.len);
    TidyThen(g, g2, g3, {}, {});
    ReadyAfter(g, g3, {}, {});
    var (g4, w) := Update(g3, st.how, x, idx, v);
    UpdateTidy(g3, st.how, x, idx, v);
    TidyThen(g, g3, g4, {}, {});
    ReadyAfter(g, g4, {}, {});
    DefineTidy(g4, Store(w, x, idx, v.width));
    TidyThen(g, g4, Emit(g4, Store(w, x, idx, v.width)), {}, {});
  }

  // ---- all statements ----

  lemma {:induction false} StmtTidy(st: S.Stmt, g: Gen, env: S.Env, ctx: S.Ctx)
    requires S.Legal(st, env, ctx) && Ready(g) && TargetsOk(g, ctx)
    ensures Lowered(g, ctx, LowerStmt(st, g), S.Exits(st), S.HasSwitch(st))
    decreases st, 3
  {
    hide Lowered, TargetsOk;
    StmtCases(st, g, env, ctx, LowerStmt(st, g));
  }

  lemma {:induction false} StmtCases(st: S.Stmt, g: Gen, env: S.Env, ctx: S.Ctx, h: Gen)
    requires S.Legal(st, env, ctx) && Ready(g) && TargetsOk(g, ctx) && h == LowerStmt(st, g)
    ensures Lowered(g, ctx, h, S.Exits(st), S.HasSwitch(st))
    decreases st, 2
  {
    hide Tidy, LowerAll, LowerIf, LowerIfElse, LowerFor, LowerForRange, LowerSwitch, LowerAssignElem, LowerExpr;
    match st
    case ExprStmt(_) => StraightTidy(st, g); TidyWider(g, h, {}, Outer(g, ctx));
    case Declare(_, _, _) => StraightTidy(st, g); TidyWider(g, h, {}, Outer(g, ctx));
    case Assign(_, _, _, _) => StraightTidy(st, g); TidyWider(g, h, {}, Outer(g, ctx));
    case AssignElem(_, _, _, _, _) => StraightTidy(st, g); TidyWider(g, h, {}, Outer(g, ctx));
    case Block(body) => AllTidy(body, g, env, ctx);
    case If(_, _) => IfTidy(st, g, env, ctx);
    case IfElse(_, _, _) => IfElseTidy(st, g, env, ctx);
    case For(_, _) => ForTidy(st, g, env, ctx);
    case ForRange(_, _, _, _, _) => ForRangeTidy(st, g, env, ctx);
    case Switch(_, _) => SwitchTidy(st, g, env, ctx);
    case Break => ExitTidy(g, Br(Top(g).breakBb), Outer(g, ctx));
    case Continue => ExitTidy(g, Br(Top(g).continueBb.bb), Outer(g, ctx));
    case Fallthrough => ExitTidy(g, Br(g.fall.bb), Outer(g, ctx));
    case Return(_, _) => ReturnTidy(st, g, Outer(g, ctx));
    case ReturnVoid => ExitTidy(g, RetVoid, Outer(g, ctx));
  }

  lemma ReturnTidy(st: S.Stmt, g: Gen, outer: set<BlockId>)
    requires Ready(g) && st.Return? && forall b | b in outer :: b < |g.blocks|
    ensures var h := LowerStmt(st, g);
      Tidy(g, h, {}, outer) && Closed(h.blocks[h.cur]) && h.loops == g.loops && h.fall == g.fall
  {
    hide LowerExpr, Coerce;
    var (g1, v) := LowerExpr(st.e, g);
    ExprTidy(st.e, g);
    var (g2, w) := Coerce(g1, v, S.WidthOf(st.ty));
    ResizeTidy(g1, v, S.WidthOf(st.ty));
    TidyThen(g, g1, g2, {}, {});
    ExitTidy(g2, Ret(w), {});
    TidyTrans(g, g2, Emit(g2, Ret(w)), {}, {}, {});
    TidyWider(g, Emit(g2, Ret(w)), {}, outer);
  }

  /** Statement after statement: the second starts where the first left the builder. */
  lemma LoweredThen(g: Gen, ctx: S.Ctx, g1: Gen, sw1: bool, h: Gen, exits: bool, sw2: bool)
    requires TargetsOk(g, ctx) && Lowered(g, ctx, g1, false, sw1)
    requires var ctx1 := ctx.(canFall := ctx.canFall && !sw1);
      HasTargets(g1, ctx1) && Lowered(g1, ctx1, h, exits, sw2)
    ensures Lowered(g, ctx, h, exits, sw1 || sw2)
  {
    hide AllClosed, EdgesInside, NoPhi, Open, Closed;
    var ctx1 := ctx.(canFall := ctx.canFall && !sw1);
    assert Outer(g1, ctx1) <= Outer(g, ctx);
    TidyTrans(g, g1, h, {}, Outer(g, ctx), Outer(g1, ctx1));
  }

  lemma TargetsLater(g: Gen, ctx: S.Ctx, g1: Gen, sw: bool)
    requires TargetsOk(g, ctx) && Lowered(g, ctx, g1, false, sw)
    ensures Ready(g1) && TargetsOk(g1, ctx.(canFall := ctx.canFall && !sw))
  {
    var ctx1 := ctx.(canFall := ctx.canFall && !sw);
    assert HasTargets(g1, ctx1);
    assert Outer(g1, ctx1) <= Outer(g, ctx);
  }

  lemma {:induction false} AllTidy(ss: S.Stmts, g: Gen, env: S.Env, ctx: S.Ctx)
    requires S.LegalAll(ss, env, ctx) && Ready(g) && TargetsOk(g, ctx)
    ensures Lowered(g, ctx, LowerAll(ss, g), S.ExitsAll(ss), S.HasSwitchAll(ss))
    decreases ss, 1
  {
    match ss
    case Nil => TidyRefl(g); TidyWider(g, g, {}, Outer(g, ctx));
    case Cons(st, rest) =>
      hide Lowered, TargetsOk, LowerStmt, Tidy, Ready, HasTargets, S.Legal, S.Exits, S.HasSwitch;
      ReadyOk(g);
      var g1 := LowerStmt(st, g);
      StmtTidy(st, g, env, ctx);
      if rest != S.Nil {
        var ctx1 := ctx.(canFall := ctx.canFall && !S.HasSwitch(st));
        TargetsLater(g, ctx, g1, S.HasSwitch(st));
        AllTidy(rest, g1, S.EnvAfter(st, env), ctx1);
        TargetsHave(g1, ctx1);
        LoweredThen(g, ctx, g1, S.HasSwitch(st), LowerAll(rest, g1), S.ExitsAll(rest), S.HasSwitchAll(rest));
      }
  }

  lemma TargetsHave(g: Gen, ctx: S.Ctx)
    requires TargetsOk(g, ctx)
    ensures HasTargets(g, ctx)
  {
  }

  // ---- branches ----

  /** Jump targets survive whatever happens elsewhere. */
  lemma TargetsKept(g: Gen, ctx: S.Ctx, h: Gen, ctx': S.Ctx)
    requires TargetsOk(g, ctx) && Appends(g, h) && h.loops == g.loops
    requires ctx' == ctx.(canFall := ctx'.canFall) && (ctx'.canFall ==> ctx.canFall && h.fall == g.fall)
    ensures TargetsOk(h, ctx') && Outer(h, ctx') <= Outer(g, ctx)
  {
    assert HasTargets(h, ctx');
    forall b | b in Outer(h, ctx') ensures b < |h.blocks| && b != h.cur && NoPhi(h.blocks[b]) {
      assert b in Outer(g, ctx);
    }
  }

  lemma PendingFresh(f: Gen, g: Gen, pending: set<BlockId>, outer: set<BlockId>, b: BlockId)
    requires Tidy(f, g, pending, outer) && b in pending
    ensures |f.blocks| <= b < |g.blocks| && NoPhi(g.blocks[b]) && g.cur != b && g.blocks[b] == []
  {
  }

  /** A condition, tested in the current block. */
  lemma CondTidy(e: S.Expr, g: Gen)
    requires Ready(g)
    ensures var (g1, a) := LowerExpr(e, g);
      var g2 := Truth(g1, a).0;
      TidyOpen(g, g2, {}, {}) && Ready(g2) && After(g, g2)
  {
    hide LowerExpr, Truth, Tidy;
    var (g1, a) := LowerExpr(e, g);
    ExprTidy(e, g);
    ReadyAfter(g, g1, {}, {});
    var (g2, b) := Truth(g1, a);
    TruthTidy(g1, a);
    TidyThen(g, g1, g2, {}, {});
    ReadyAfter(g, g2, {}, {});
  }

  lemma TidyIs(f: Gen, g: Gen, pending: set<BlockId>, outer: set<BlockId>)
    requires TidyOpen(f, g, pending, outer)
    ensures Tidy(f, g, pending, outer) && Appends(f, g) && Ready(g)
  {
  }

  /** Go on from a tidy state with a statement. */
  lemma {:induction false} InnerTidy(g: Gen, ctx: S.Ctx, f: Gen, pending: set<BlockId>, st: S.Stmt, env: S.Env, ctx': S.Ctx)
    requires TargetsOk(g, ctx) && TidyOpen(g, f, pending, Outer(g, ctx)) && f.loops == g.loops
    requires ctx' == ctx.(canFall := ctx'.canFall) && (ctx'.canFall ==> ctx.canFall && f.fall == g.fall)
    requires S.Legal(st, env, ctx')
    ensures var h := LowerStmt(st, f);
      && Tidy(g, h, pending, Outer(g, ctx)) && (Open(h.blocks[h.cur]) || Closed(h.blocks[h.cur]))
      && h.loops == g.loops && h.fall == if S.HasSwitch(st) then NoTarget else f.fall
    decreases st, 4
  {
    hide LowerStmt, Open, Closed;
    TidyIs(g, f, pending, Outer(g, ctx));
    TargetsKept(g, ctx, f, ctx');
    StmtTidy(st, f, env, ctx');
    TidyTrans(g, f, LowerStmt(st, f), pending, Outer(g, ctx), Outer(f, ctx'));
  }

  /** One arm of an if: lower it, leave for merge, and go on at `to`. */
  lemma {:induction false} ArmTidy(g: Gen, ctx: S.Ctx, f: Gen, pending: set<BlockId>, st: S.Stmt, env: S.Env, ctx': S.Ctx, merge: BlockId, to: BlockId)
    requires TargetsOk(g, ctx) && TidyOpen(g, f, pending, Outer(g, ctx)) && f.loops == g.loops
    requires ctx' == ctx.(canFall := ctx'.canFall) && (ctx'.canFall ==> ctx.canFall && f.fall == g.fall)
    requires S.Legal(st, env, ctx') && merge in pending && to in pending
    ensures Ok(f)
    ensures var h := Move(Leave(LowerStmt(st, f), merge), to);
      && TidyOpen(g, h, pending - {to}, Outer(g, ctx)) && Ok(h)
      && h.loops == g.loops && h.fall == if S.HasSwitch(st) then NoTarget else f.fall
    decreases st, 5
  {
    hide LowerStmt, Open, Closed, Tidy, TargetsOk, HasTargets, S.Legal, S.HasSwitch;
    TargetsHave(g, ctx);
    TidyIs(g, f, pending, Outer(g, ctx));
    var t := LowerStmt(st, f);
    InnerTidy(g, ctx, f, pending, st, env, ctx');
    PendingFresh(g, t, pending, Outer(g, ctx), merge);
    LeaveTidy(g, t, merge, to, pending, Outer(g, ctx));
    TidyIs(g, Move(Leave(t, merge), to), pending - {to}, Outer(g, ctx));
  }

  lemma {:induction false} IfTidy(st: S.Stmt, g: Gen, env: S.Env, ctx: S.Ctx)
    requires st.If? && S.Legal(st, env, ctx) && Ready(g) && TargetsOk(g, ctx)
    ensures Lowered(g, ctx, LowerIf(st, g), false, S.HasSwitch(st))
    decreases st, 0
  {
    hide LowerExpr, Truth, Fork, LowerStmt, Tidy, TargetsOk, Ready, Open, Closed, Leave, HasTargets;
    ReadyOk(g);
    TargetsHave(g, ctx);
    var (g1, a) := LowerExpr(st.c, g);
    var (g2, b) := Truth(g1, a);
    CondTidy(st.c, g);
    var f, merge := Fork(g2, b, true), |g2.blocks| + 1;
    ForkTidy(g2, b, true);
    TidyAfter(g, g2, f, {merge}, Outer(g, ctx)) by { OuterSmall(g, ctx); }
    ArmTidy(g, ctx, f, {merge}, st.thn, env, ctx, merge, merge);
    assert {merge} - {merge} == {};
  }

  lemma OuterSmall(g: Gen, ctx: S.Ctx)
    requires TargetsOk(g, ctx)
    ensures forall b | b in Outer(g, ctx) :: b < |g.blocks|
  {
  }

  /** Two steps of inner work, seen with outside jumps allowed. */
  lemma TidyAfter(f: Gen, g: Gen, h: Gen, pending: set<BlockId>, outer: set<BlockId>)
    requires TidyOpen(f, g, {}, {}) && TidyOpen(g, h, pending, {}) && forall b | b in outer :: b < |f.blocks|
    ensures TidyOpen(f, h, pending, outer)
  {
    TransAppends(f, g, h);
    assert AllClosed(f, h, pending) by { hide Closed; }
    TransEdges(f, g, h, {}, {});
    TidyWider(f, h, pending, outer);
  }

  lemma Finish(g: Gen, ctx: S.Ctx, h: Gen, hasSwitch: bool)
    requires TargetsOk(g, ctx) && TidyOpen(g, h, {}, Outer(g, ctx))
    requires h.loops == g.loops && h.fall == if hasSwitch then NoTarget else g.fall
    ensures Lowered(g, ctx, h, false, hasSwitch)
  {
  }

  lemma {:induction false} IfElseTidy(st: S.Stmt, g: Gen, env: S.Env, ctx: S.Ctx)
    requires st.IfElse? && S.Legal(st, env, ctx) && Ready(g) && TargetsOk(g, ctx)
    ensures Lowered(g, ctx, LowerIfElse(st, g), false, S.HasSwitch(st))
    decreases st, 1
  {
    hide LowerExpr, Truth, Fork3, LowerStmt, Tidy, TargetsOk, Ready, Open, Closed, Leave, HasTargets;
    ReadyOk(g);
    TargetsHave(g, ctx);
    var (g1, a) := LowerExpr(st.c, g);
    var (g2, b) := Truth(g1, a);
    CondTidy(st.c, g);
    var f, els, merge := Fork3(g2, b), |g2.blocks| + 1, |g2.blocks| + 2;
    Fork3Tidy(g2, b);
    TidyAfter(g, g2, f, {els, merge}, Outer(g, ctx)) by { OuterSmall(g, ctx); }
    ArmsTidy(st, g, env, ctx, f, els, merge);
  }

  /** Both arms, once the blocks for them are there. */
  lemma {:induction false} ArmsTidy(st: S.Stmt, g: Gen, env: S.Env, ctx: S.Ctx, f: Gen, elseBb: BlockId, merge: BlockId)
    requires st.IfElse? && S.Legal(st.thn, env, ctx) && S.Legal(st.els, env, ctx.(canFall := ctx.canFall && !S.HasSwitch(st.thn)))
    requires TargetsOk(g, ctx) && elseBb != merge
    requires TidyOpen(g, f, {elseBb, merge}, Outer(g, ctx)) && f.loops == g.loops && f.fall == g.fall
    ensures Ok(f)
    ensures var t := Leave(LowerStmt(st.thn, f), merge);
      Ok(Move(t, elseBb)) &&
      Lowered(g, ctx, Move(Leave(LowerStmt(st.els, Move(t, elseBb)), merge), merge), false, S.HasSwitch(st.thn) || S.HasSwitch(st.els))
    decreases st, 0
  {
    hide LowerStmt, TidyOpen, TargetsOk, Leave, HasTargets, Lowered, S.Legal, S.HasSwitch;
    TargetsHave(g, ctx);
    ArmTidy(g, ctx, f, {elseBb, merge}, st.thn, env, ctx, merge, elseBb);
    assert {elseBb, merge} - {elseBb} == {merge};
    var h := Move(Leave(LowerStmt(st.thn, f), merge), elseBb);
    ArmTidy(g, ctx, h, {merge}, st.els, env, ctx.(canFall := ctx.canFall && !S.HasSwitch(st.thn)), merge, merge);
    assert {merge} - {merge} == {};
    Finish(g, ctx, Move(Leave(LowerStmt(st.els, h), merge), merge), S.HasSwitch(st.thn) || S.HasSwitch(st.els));
  }

  // ---- loops ----

  /** The loop's head: from the freshly entered cond block to the body block. */
  lemma TestTidy(cond: S.MaybeExpr, f: Gen, g: Gen, body: BlockId, end: BlockId, pending: set<BlockId>)
    requires TidyOpen(f, g, pending, {}) && body in pending && end in pending && g.blocks[g.cur] == []
    ensures var h := Move(LowerTest(cond, g, body, end), body);
      && TidyOpen(f, h, pending - {body}, {}) && NoPhi(h.blocks[g.cur]) && g.cur != body && h.blocks[body] == []
  {
    hide LowerExpr, Truth, Tidy, Emit;
    TidyIs(f, g, pending, {});
    PendingFresh(f, g, pending, {}, body);
    var i, x := Br(body), g;
    TidyRefl(g);
    if cond.TheExpr? {
      var (g1, a) := LowerExpr(cond.e, g);
      var (g2, b) := Truth(g1, a);
      CondTidy(cond.e, g);
      TidyThen(f, g, g2, pending, {});
      i, x := CondBr(b, body, end), g2;
    }
    PendingFresh(f, x, pending, {}, body);
    PendingFresh(f, x, pending, {}, end);
    JumpTidy(f, x, i, body, pending, {});
    EmitElsewhere(x, i, body);
    NoPhiHead(g, x, i);
  }

  lemma NoPhiHead(g: Gen, x: Gen, i: Instr)
    requires TidyOpen(g, x, {}, {}) && g.blocks[g.cur] == [] && !i.Phi?
    ensures NoPhi(Emit(x, i).blocks[g.cur])
  {
    var h := Emit(x, i);
    if x.cur == g.cur {
      assert h.blocks[g.cur] == x.blocks[g.cur] + [i];
    } else {
      assert h.blocks[g.cur] == x.blocks[g.cur];
    }
  }

  /** Enter a loop: the first block is open and empty, the others are pending. */
  lemma EnterTidy(g: Gen, n: nat, t: LoopTarget)
    requires Ready(g) && n > 0
    ensures var h := EnterLoop(g, n, t);
      TidyOpen(g, h, Ids(|g.blocks| + 1, n - 1), {}) && h.blocks[h.cur] == []
  {
    hide Preds, Tidy;
    var c := |g.blocks|;
    var g1 := NewBlocks(g, n);
    NewBlocksTidy(g, n);
    TidyIgnores(g, g1, Push(g1, t), Ids(c, n), {});
    JumpTidy(g, Push(g1, t), Br(c), c, Ids(c, n), {});
    assert Ids(c, n) - {c} == Ids(c + 1, n - 1);
  }

  /** The body of a loop, lowered with the loop's own targets on the stack. */
  lemma {:induction false} BodyTidy(g: Gen, ctx: S.Ctx, f: Gen, t: LoopTarget, pending: set<BlockId>, body: S.Stmts, env: S.Env, canContinue: bool, fall: Target, canFall: bool)
    requires TargetsOk(g, ctx) && ctx.depth < S.MAX_NESTING && TidyOpen(g, f, pending, Outer(g, ctx))
    requires f.loops == g.loops + [t] && f.fall == fall
    requires t.breakBb in pending && (canContinue ==> t.continueBb.To? && |g.blocks| <= t.continueBb.bb < |f.blocks|
                                                      && t.continueBb.bb != f.cur && NoPhi(f.blocks[t.continueBb.bb]))
    requires canFall ==> fall.To? && (fall.bb in pending || (ctx.canFall && fall == g.fall))
    requires S.LegalAll(body, env, S.Ctx(true, canContinue, canFall, ctx.depth + 1))
    ensures var h := LowerAll(body, f);
      && Tidy(g, h, pending, Outer(g, ctx)) && (Open(h.blocks[h.cur]) || Closed(h.blocks[h.cur]))
      && h.loops == f.loops && h.fall == (if S.HasSwitchAll(body) then NoTarget else fall)
      && Appends(f, h)
    decreases body, 4
  {
    hide LowerAll, Open, Closed, PhiExact, Preds, NoDangling;
    var ctx' := S.Ctx(true, canContinue, canFall, ctx.depth + 1);
    BodyTargets(g, ctx, f, t, pending, canContinue, fall, canFall);
    AllTidy(body, f, env, ctx');
    var h := LowerAll(body, f);
    assert forall b | b in Outer(f, ctx') :: b in Outer(g, ctx) || (|g.blocks| <= b && NoPhi(f.blocks[b]));
    TidyTrans(g, f, h, pending, Outer(g, ctx), Outer(f, ctx'));
  }

  lemma BodyTargets(g: Gen, ctx: S.Ctx, f: Gen, t: LoopTarget, pending: set<BlockId>, canContinue: bool, fall: Target, canFall: bool)
    requires TargetsOk(g, ctx) && TidyOpen(g, f, pending, Outer(g, ctx)) && f.loops == g.loops + [t] && f.fall == fall
    requires t.breakBb in pending && (canContinue ==> t.continueBb.To? && |g.blocks| <= t.continueBb.bb < |f.blocks|
                                                      && t.continueBb.bb != f.cur && NoPhi(f.blocks[t.continueBb.bb]))
    requires canFall ==> fall.To? && (fall.bb in pending || (ctx.canFall && fall == g.fall))
    ensures var ctx' := S.Ctx(true, canContinue, canFall, ctx.depth + 1);
      && Ready(f) && TargetsOk(f, ctx')
      && forall b | b in Outer(f, ctx') :: b in Outer(g, ctx) || (|g.blocks| <= b && NoPhi(f.blocks[b]))
  {
    var ctx' := S.Ctx(true, canContinue, canFall, ctx.depth + 1);
    assert HasTargets(f, ctx') && Top(f) == t;
    PendingFresh(g, f, pending, Outer(g, ctx), t.breakBb);
    if canFall && fall.bb in pending { PendingFresh(g, f, pending, Outer(g, ctx), fall.bb); }
    forall b | b in Outer(f, ctx') ensures b < |f.blocks| && b != f.cur && NoPhi(f.blocks[b]) {}
  }

  lemma {:induction false} ForTidy(st: S.Stmt, g: Gen, env: S.Env, ctx: S.Ctx)
    requires st.For? && S.Legal(st, env, ctx) && Ready(g) && TargetsOk(g, ctx)
    ensures Lowered(g, ctx, LowerFor(st, g), false, S.HasSwitch(st))
    decreases st, 1
  {
    hide LowerTest, LowerAll, TidyOpen, Ready, Leave, EnterLoop, NoPhi, Push, Pop, TargetsOk, HasTargets, Lowered, Outer;
    ReadyOk(g);
    TargetsHave(g, ctx);
    var cond, end := |g.blocks|, |g.blocks| + 2;
    var t := LoopTarget(To(cond), end);
    var f := ForHead(st.cond, g);
    DepthSmall(g, ctx);
    ForHeadTidy(st.cond, g, ctx);
    ForBodyTidy(st, g, env, ctx, f, t, cond, end);
  }

  /** A `for` up to the start of its body. */
  lemma ForHeadTidy(cond: S.MaybeExpr, g: Gen, ctx: S.Ctx)
    requires Ready(g) && TargetsOk(g, ctx) && |g.loops| < MAX_LOOP_DEPTH
    ensures var f := ForHead(cond, g);
      && TidyOpen(g, f, {|g.blocks| + 2}, Outer(g, ctx)) && NoPhi(f.blocks[|g.blocks|]) && f.cur == |g.blocks| + 1
      && f.loops == g.loops + [LoopTarget(To(|g.blocks|), |g.blocks| + 2)] && f.fall == g.fall
      && |g.blocks| + 2 < |f.blocks| && f.blocks[f.cur] == []
  {
    hide LowerTest, TidyOpen, Ready, EnterLoop, NoPhi, Push, TargetsOk, HasTargets, Outer;
    ReadyOk(g);
    TargetsHave(g, ctx);
    var n := |g.blocks|;
    var t := LoopTarget(To(n), n + 2);
    var g2 := EnterLoop(g, 3, t);
    EnterTidy(g, 3, t);
    assert Ids(n + 1, 2) == {n + 1, n + 2};
    TestTidy(cond, g, g2, n + 1, n + 2, {n + 1, n + 2});
    assert {n + 1, n + 2} - {n + 1} == {n + 2};
    PushLoops(g, t);
    TidyWiden(g, ForHead(cond, g), {n + 2}, ctx);
  }

  /** The body of a `for`, back to the test, and on to the end block. */
  lemma {:induction false} ForBodyTidy(st: S.Stmt, g: Gen, env: S.Env, ctx: S.Ctx, f: Gen, t: LoopTarget, cond: BlockId, end: BlockId)
    requires st.For? && S.Legal(st, env, ctx) && TargetsOk(g, ctx)
    requires TidyOpen(g, f, {end}, Outer(g, ctx)) && f.loops == g.loops + [t] && f.fall == g.fall
    requires t == LoopTarget(To(cond), end) && |g.blocks| <= cond < |f.blocks| && cond != f.cur && NoPhi(f.blocks[cond])
    ensures Ok(f)
    ensures Lowered(g, ctx, Move(Pop(Leave(LowerAll(st.body, f), cond)), end), false, S.HasSwitch(st))
    decreases st, 0
  {
    hide LowerAll, TidyOpen, Tidy, Open, Closed, Leave, NoPhi, Preds, Push, Pop, TargetsOk, HasTargets, Lowered;
    TargetsHave(g, ctx);
    TidyIs(g, f, {end}, Outer(g, ctx));
    BodyTidy(g, ctx, f, t, {end}, st.body, env, true, f.fall, ctx.canFall);
    var h := LowerAll(st.body, f);
    assert h.blocks[cond] == f.blocks[cond];
    LeaveTidy(g, h, cond, end, {end}, Outer(g, ctx));
    assert {end} - {end} == {};
    PopTidy(g, ctx, Leave(h, cond), t, end, S.HasSwitch(st));
  }

  lemma PushLoops(g: Gen, t: LoopTarget)
    requires |g.loops| < MAX_LOOP_DEPTH
    ensures Push(g, t).loops == g.loops + [t]
  {
  }

  lemma TidyWiden(g: Gen, h: Gen, pending: set<BlockId>, ctx: S.Ctx)
    requires TargetsOk(g, ctx) && TidyOpen(g, h, pending, {})
    ensures TidyOpen(g, h, pending, Outer(g, ctx))
  {
    TidyWider(g, h, pending, Outer(g, ctx));
  }

  // ---- range loops ----

  lemma BoundsTidy(lo: S.Expr, hi: S.Expr, inclusive: bool, g: Gen)
    requires Ready(g)
    ensures TidyOpen(g, LowerBounds(lo, hi, inclusive, g).0, {}, {}) && Ready(LowerBounds(lo, hi, inclusive, g).0)
  {
    hide LowerExpr, TidyOpen, Ready;
    ReadyOk(g);
    var (g1, low) := LowerExpr(lo, g);
    ExprTidy(lo, g);
    ReadyAfter(g, g1, {}, {});
    var (g2, high) := LowerExpr(hi, g1);
    ExprTidy(hi, g1);
    TidyThen(g, g1, g2, {}, {});
    PairTidy(g, g2, low.op, high.op, inclusive);
  }

  /** Storing the bounds in a pair and reading them back is straight-line code. */
  lemma PairTidy(g: Gen, g2: Gen, low: Operand, high: Operand, inclusive: bool)
    requires TidyOpen(g, g2, {}, {})
    ensures Ok(g2)
    ensures TidyOpen(g, StorePair(g2, low, high, inclusive).0, {}, {}) && Ready(StorePair(g2, low, high, inclusive).0)
  {
    hide TidyOpen, Open, NoDangling, EmitAll, IsTerminator;
    TidyIs(g, g2, {}, {});
    var h := g2.(temps := g2.temps + 1);
    TidyIgnores(g, g2, h, {}, {});
    var ins := PairCode(Temp(g2.temps), g2.regs, low, high, inclusive);
    PairPlain(Temp(g2.temps), g2.regs, low, high, inclusive);
    PlainThen(g, h, ins, if inclusive then 3 else 2, {}, {});
  }

  lemma PairPlain(t: Region, r: nat, low: Operand, high: Operand, inclusive: bool)
    ensures var ins := PairCode(t, r, low, high, inclusive);
      forall k | 0 <= k < |ins| :: !IsTerminator(ins[k]) && !ins[k].Phi?
  {
  }

  /** More straight-line instructions; the other blocks do not change. */
  lemma PlainThen(f: Gen, g: Gen, ins: seq<Instr>, n: nat, pending: set<BlockId>, outer: set<BlockId>)
    requires TidyOpen(f, g, pending, outer) && forall k | 0 <= k < |ins| :: !IsTerminator(ins[k]) && !ins[k].Phi?
    ensures Ok(g)
    ensures TidyOpen(f, EmitAll(g, ins, n), pending, outer)
    ensures Ready(EmitAll(g, ins, n)) && Ready(g) && TidyOpen(g, EmitAll(g, ins, n), {}, {})
    ensures forall b | 0 <= b < |g.blocks| && b != g.cur :: EmitAll(g, ins, n).blocks[b] == g.blocks[b]
  {
    TidyIs(f, g, pending, outer);
    PlainTidyAll(g, ins, n);
    TidyThen(f, g, EmitAll(g, ins, n), pending, outer);
    ReadyAfter(f, EmitAll(g, ins, n), pending, outer);
  }

  /** Declare the loop variable and enter the loop. */
  lemma EnterRangeTidy(g: Gen, x: Region, low: Operand, t: LoopTarget)
    requires Ready(g)
    ensures var h := EnterRange(g, x, low, t);
      TidyOpen(g, h, Ids(|g.blocks| + 1, 3), {}) && h.blocks[h.cur] == []
  {
    hide Preds, Tidy, Emit, EmitAll;
    var c := |g.blocks|;
    var g1 := NewBlocks(g, 4);
    NewBlocksTidy(g, 4);
    var g2 := Push(g1, t);
    TidyIgnores(g, g1, g2, Ids(c, 4), {});
    var ins := [Alloca(x, 1), Store(low, x, Imm(0), 64)];
    PlainThen(g, g2, ins, 0, Ids(c, 4), {});
    var g3 := EmitAll(g2, ins, 0);
    PendingFresh(g, g3, Ids(c, 4), {}, c);
    JumpTidy(g, g3, Br(c), c, Ids(c, 4), {});
    assert Ids(c, 4) - {c} == Ids(c + 1, 3);
    EmitElsewhere(g3, Br(c), c);
  }

  lemma EmitElsewhere(g: Gen, i: Instr, b: BlockId)
    requires Ok(g) && b < |g.blocks| && b != g.cur
    ensures Emit(g, i).blocks[b] == g.blocks[b]
  {
  }

  lemma RangeTestTidy(f: Gen, g: Gen, x: Region, high: Operand, body: BlockId, end: BlockId, pending: set<BlockId>)
    requires TidyOpen(f, g, pending, {}) && body in pending && end in pending && g.blocks[g.cur] == []
    ensures var h := Move(RangeTest(g, x, high, body, end), body);
      && TidyOpen(f, h, pending - {body}, {}) && NoPhi(h.blocks[g.cur]) && g.cur != body && h.blocks[body] == []
  {
    hide Tidy, Emit, EmitAll;
    var r := g.regs;
    var ins := [Load(r, x, Imm(0)), ICmp(r + 1, Slt, Reg(r), high, 64)];
    PlainThen(f, g, ins, 2, pending, {});
    var h := EmitAll(g, ins, 2);
    PendingFresh(f, h, pending, {}, body);
    PendingFresh(f, h, pending, {}, end);
    JumpTidy(f, h, CondBr(Reg(r + 1), body, end), body, pending, {});
    EmitElsewhere(h, CondBr(Reg(r + 1), body, end), body);
    NoPhiHead(g, h, CondBr(Reg(r + 1), body, end));
  }

  lemma RangeStepTidy(f: Gen, g: Gen, x: Region, cond: BlockId, end: BlockId, outer: set<BlockId>)
    requires TidyOpen(f, g, {end}, outer) && |f.blocks| <= cond < |g.blocks| && NoPhi(g.blocks[cond]) && cond != g.cur
    ensures TidyOpen(f, Move(RangeStep(g, x, cond), end), {}, outer)
  {
    hide Tidy, Emit, EmitAll;
    var r := g.regs;
    var ins := [Load(r, x, Imm(0)), Binary(r + 1, Add, Reg(r), Imm(1)), Store(Reg(r + 1), x, Imm(0), 64)];
    PlainThen(f, g, ins, 2, {end}, outer);
    JumpTidy(f, EmitAll(g, ins, 2), Br(cond), end, {end}, outer);
    assert {end} - {end} == {};
  }

  lemma {:induction false} ForRangeTidy(st: S.Stmt, g: Gen, env: S.Env, ctx: S.Ctx)
    requires st.ForRange? && S.Legal(st, env, ctx) && Ready(g) && TargetsOk(g, ctx)
    ensures Lowered(g, ctx, LowerForRange(st, g), false, S.HasSwitch(st))
    decreases st, 1
  {
    hide LowerBounds, LowerAll, TidyOpen, Ready, Leave, RangeHead, NoPhi, Push, Pop, RangeStep, TargetsOk, HasTargets, Lowered, Outer;
    ReadyOk(g);
    TargetsHave(g, ctx);
    var (g1, low, high) := LowerBounds(st.lo, st.hi, st.inclusive, g);
    BoundsTidy(st.lo, st.hi, st.inclusive, g);
    var n, x := |g1.blocks|, Slot(st.x, 64);
    var t := LoopTarget(To(n + 2), n + 3);
    DepthSmall(g, ctx);
    RangeHeadTidy(g1, x, low, high, t);
    var f := RangeHead(g1, x, low, high);
    OuterSmall(g, ctx);
    TidyAfter(g, g1, f, {n + 2, n + 3}, Outer(g, ctx));
    RangeBodyTidy(st, g, env, ctx, f, t, n, n + 2, n + 3);
  }

  /** A range loop up to the start of its body. */
  lemma RangeHeadTidy(g: Gen, x: Region, low: Operand, high: Operand, t: LoopTarget)
    requires Ready(g)
    requires |g.loops| < MAX_LOOP_DEPTH && t == LoopTarget(To(|g.blocks| + 2), |g.blocks| + 3)
    ensures var n := |g.blocks|;
      var f := RangeHead(g, x, low, high);
      TidyOpen(g, f, {n + 2, n + 3}, {}) && NoPhi(f.blocks[n]) && f.loops == g.loops + [t] && f.blocks[f.cur] == []
  {
    hide Tidy, EnterRange, RangeTest, NoPhi, Push;
    PushLoops(g, t);
    var n := |g.blocks|;
    EnterRangeTidy(g, x, low, t);
    assert Ids(n + 1, 3) == {n + 1, n + 2, n + 3};
    RangeTestTidy(g, EnterRange(g, x, low, t), x, high, n + 1, n + 3, {n + 1, n + 2, n + 3});
    assert {n + 1, n + 2, n + 3} - {n + 1} == {n + 2, n + 3};
  }

  lemma DepthSmall(g: Gen, ctx: S.Ctx)
    requires HasTargets(g, ctx) && ctx.depth < S.MAX_NESTING
    ensures |g.loops| < MAX_LOOP_DEPTH
  {
  }

  lemma {:induction false} RangeBodyTidy(st: S.Stmt, g: Gen, env: S.Env, ctx: S.Ctx, f: Gen, t: LoopTarget, cond: BlockId, inc: BlockId, end: BlockId)
    requires st.ForRange? && S.Legal(st, env, ctx) && TargetsOk(g, ctx) && inc != end
    requires TidyOpen(g, f, {inc, end}, Outer(g, ctx)) && f.loops == g.loops + [t] && f.fall == g.fall
    requires t == LoopTarget(To(inc), end) && |g.blocks| <= cond < |f.blocks| && cond != f.cur && NoPhi(f.blocks[cond]) && cond != inc
    ensures Ok(f)
    ensures var g5 := Move(Leave(LowerAll(st.body, f), inc), inc);
      Ok(g5) && Lowered(g, ctx, Move(Pop(RangeStep(g5, Slot(st.x, 64), cond)), end), false, S.HasSwitch(st))
    decreases st, 0
  {
    hide LowerAll, TidyOpen, Tidy, Open, Closed, Leave, NoPhi, Preds, Push, Pop, RangeStep, TargetsOk, HasTargets, Lowered;
    TargetsHave(g, ctx);
    TidyIs(g, f, {inc, end}, Outer(g, ctx));
    PendingFresh(g, f, {inc, end}, Outer(g, ctx), inc);
    BodyTidy(g, ctx, f, t, {inc, end}, st.body, env[st.x := S.Scalar(S.IntT)], true, f.fall, ctx.canFall);
    var h := LowerAll(st.body, f);
    assert h.blocks[cond] == f.blocks[cond];
    PendingFresh(g, h, {inc, end}, Outer(g, ctx), inc);
    LeaveTidy(g, h, inc, inc, {inc, end}, Outer(g, ctx));
    assert {inc, end} - {inc} == {end};
    var g5 := Move(Leave(h, inc), inc);
    TidyIs(g, g5, {end}, Outer(g, ctx));
    LeaveNoPhi(h, inc, cond);
    RangeStepTidy(g, g5, Slot(st.x, 64), cond, end, Outer(g, ctx));
    var k := RangeStep(g5, Slot(st.x, 64), cond);
    PopTidy(g, ctx, k, t, end, S.HasSwitch(st));
  }

  lemma LeaveNoPhi(g: Gen, bb: BlockId, b: BlockId)
    requires Ok(g) && b < |g.blocks| && NoPhi(g.blocks[b])
    ensures NoPhi(Leave(g, bb).blocks[b])
  {
  }

  lemma PopTidy(g: Gen, ctx: S.Ctx, k: Gen, t: LoopTarget, end: BlockId, hasSwitch: bool)
    requires TargetsOk(g, ctx) && Ok(k) && k.loops == g.loops + [t] && k.fall == (if hasSwitch then NoTarget else g.fall)
    requires TidyOpen(g, Move(k, end), {}, Outer(g, ctx))
    ensures Lowered(g, ctx, Move(Pop(k), end), false, hasSwitch)
  {
    assert Pop(k).loops == g.loops;
    TidyIgnores(g, Move(k, end), Move(Pop(k), end), {}, Outer(g, ctx));
  }

  // ---- switches ----

  /** The appended blocks not yet worked on when the next clause is lowered: the end block and the bodies still to come.
      A default clause is lowered in its own body block, and after the last clause the builder is at the end block. */
  function ClauseBlocks(cases: S.Cases, b: BlockId, end: BlockId): set<BlockId> {
    match cases
    case NoCase => {}
    case Default(_) => {end}
    case Case(_, _, rest) => {end} + Ids(b, CountClauses(cases))
  }

  /** Where the builder is when the next clause is lowered. */
  predicate AtClause(cases: S.Cases, b: BlockId, end: BlockId, f: Gen) {
    match cases
    case NoCase => f.cur == end
    case Default(_) => f.cur == b
    case Case(_, _, _) => true
  }

  ghost predicate ClauseState(g: Gen, ctx: S.Ctx, f: Gen, t: LoopTarget, cases: S.Cases, b: BlockId, end: BlockId)
    requires HasTargets(g, ctx)
  {
    && Ok(f) && end < |f.blocks| && b + CountClauses(cases) <= |f.blocks|
    && TidyOpen(g, f, ClauseBlocks(cases, b, end), Outer(g, ctx)) && AtClause(cases, b, end, f)
    && f.loops == g.loops + [t] && (!cases.Case? ==> f.fall == NoTarget && f.blocks[f.cur] == []) && t == LoopTarget(NoTarget, end)
    && end < b
  }

  /** All clauses are lowered; the end block is still to be entered. */
  ghost predicate SwitchLowered(g: Gen, ctx: S.Ctx, t: LoopTarget, end: BlockId, h: Gen) {
    && HasTargets(g, ctx) && end < |h.blocks| && h.blocks[end] == []
    && TidyOpen(g, Move(h, end), {}, Outer(g, ctx)) && h.loops == g.loops + [t] && h.fall == NoTarget
  }

  lemma BlocksAfter(cases: S.Cases, b: BlockId, end: BlockId, miss: BlockId)
    requires cases.Case? && end < b && b + CountClauses(cases) <= miss
    ensures var p := ClauseBlocks(cases, b, end);
      var rest := cases.rest;
      && b in p && end in p && BodyBlock(rest, b + 1, end) in p - {b} && miss !in p
      && (rest.Case? ==> p - {b} == ClauseBlocks(rest, b + 1, end))
      && (!rest.Case? ==> p - {b} - {BodyBlock(rest, b + 1, end)} == ClauseBlocks(rest, b + 1, end))
  {
    var p, rest := ClauseBlocks(cases, b, end), cases.rest;
    assert p - {b} == {end} + Ids(b + 1, CountClauses(rest));
    if rest.Default? { assert Ids(b + 1, 1) == {b + 1}; }
    if rest.NoCase? { assert Ids(b + 1, 0) == {}; }
  }

  /** Append one more empty block. */
  lemma OneMoreTidy(f: Gen, g: Gen, pending: set<BlockId>, outer: set<BlockId>)
    requires TidyOpen(f, g, pending, outer)
    ensures TidyOpen(f, NewBlocks(g, 1), pending + {|g.blocks|}, outer)
  {
    hide Preds;
    ReadyAfter(f, g, pending, outer);
    NewBlocksTidy(g, 1);
    var h := NewBlocks(g, 1);
    TransAppends(f, g, h);
    forall b | |f.blocks| <= b < |h.blocks| ensures PhiExact(h.blocks, b) {
      if b < |g.blocks| {
        assert h.blocks[b] == g.blocks[b];
        assert PhiExact(g.blocks, b);
      }
    }
  }

  /** A comparison and a branch to two pending blocks, going on in the first. */
  lemma CompareTidy(f: Gen, g: Gen, i: Instr, b: BlockId, miss: BlockId, pending: set<BlockId>, outer: set<BlockId>)
    requires TidyOpen(f, g, pending, outer) && b in pending && miss in pending && !IsTerminator(i) && !i.Phi?
    ensures TidyOpen(f, Move(Emit(Define(g, i).0, CondBr(Reg(g.regs), b, miss)), b), pending - {b}, outer)
  {
    hide TidyOpen, NoPhi;
    ReadyAfter(f, g, pending, outer);
    var h := Define(g, i).0;
    DefineTidy(g, i);
    TidyThen(f, g, h, pending, outer);
    TidyIs(f, h, pending, outer);
    PendingFresh(f, h, pending, outer, b);
    PendingFresh(f, h, pending, outer, miss);
    JumpTidy(f, h, CondBr(Reg(g.regs), b, miss), b, pending, outer);
  }

  /** Compare with the clause's value, and go on in the clause's body. */
  lemma ClauseStartTidy(g: Gen, ctx: S.Ctx, f: Gen, t: LoopTarget, cases: S.Cases, b: BlockId, end: BlockId, v: Typed)
    requires TargetsOk(g, ctx) && cases.Case?
    requires ClauseState(g, ctx, f, t, cases, b, end)
    ensures Ok(f)
    ensures var (h, miss) := ClauseStart(cases, b, end, v, f);
      var more := if cases.rest.Case? then {miss} else {};
      && TidyOpen(g, h, ClauseBlocks(cases, b, end) - {b} + more, Outer(g, ctx))
      && h.loops == g.loops + [t] && b + CountClauses(cases) <= |h.blocks|
      && (if cases.rest.Case? then miss >= b + CountClauses(cases) else miss == BodyBlock(cases.rest, b + 1, end))
  {
    hide LowerExpr, TidyOpen, TargetsOk, HasTargets, NoPhi, Outer, ClauseBlocks;
    TargetsHave(g, ctx);
    var p, outer := ClauseBlocks(cases, b, end), Outer(g, ctx);
    TidyIs(g, f, p, outer);
    var (g1, w) := LowerExpr(cases.value, f);
    ExprTidy(cases.value, f);
    TidyThen(g, f, g1, p, outer);
    BlocksAfter(cases, b, end, |g1.blocks|);
    var g2, q, miss := g1, p, BodyBlock(cases.rest, b + 1, end);
    if cases.rest.Case? {
      g2, q, miss := NewBlocks(g1, 1), p + {|g1.blocks|}, |g1.blocks|;
      OneMoreTidy(g, g1, p, outer);
    }
    CompareTidy(g, g2, ICmp(g2.regs, Eq, v.op, w.op, v.width), b, miss, q, outer);
    TidyIgnores(g, Move(CaseTest(cases.value, cases.rest, b, end, v, f).0, b), ClauseStart(cases, b, end, v, f).0, q - {b}, outer);
    assert q - {b} == p - {b} + if cases.rest.Case? then {miss} else {};
  }

  /** A clause's body, up to the block of the next comparison. */
  lemma {:induction false} ClauseTidy(g: Gen, ctx: S.Ctx, f: Gen, t: LoopTarget, cases: S.Cases, b: BlockId, end: BlockId, miss: BlockId,
                                      env: S.Env, ty: S.Ty, rep: nat)
    requires TargetsOk(g, ctx) && ctx.depth < S.MAX_NESTING && cases.Case?
    requires S.LegalCases(cases, env, ctx.depth + 1, ty, rep)
    requires end < b && b + CountClauses(cases) <= |f.blocks| && t == LoopTarget(NoTarget, end)
    requires TidyOpen(g, f, ClauseBlocks(cases, b, end) - {b} + (if cases.rest.Case? then {miss} else {}), Outer(g, ctx))
    requires f.loops == g.loops + [t] && f.fall == To(BodyBlock(cases.rest, b + 1, end))
    requires if cases.rest.Case? then miss >= b + CountClauses(cases) else miss == BodyBlock(cases.rest, b + 1, end)
    ensures Ok(f)
    ensures var h := Move(Leave(LowerAll(cases.body, f), end), miss).(fall := NoTarget);
      ClauseState(g, ctx, h, t, cases.rest, b + 1, end)
    decreases cases, 0
  {
    hide LowerAll, TidyOpen, Tidy, Open, Closed, NoPhi, TargetsOk, HasTargets, Outer, ClauseBlocks, Leave, S.LegalAll, S.HasSwitchAll;
    TargetsHave(g, ctx);
    var rest, outer := cases.rest, Outer(g, ctx);
    var p := ClauseBlocks(cases, b, end) - {b} + if rest.Case? then {miss} else {};
    BlocksAfter(cases, b, end, b + CountClauses(cases));
    if rest.Case? { BlocksAfter(cases, b, end, miss); }
    TidyIs(g, f, p, outer);
    BodyTidy(g, ctx, f, t, p, cases.body, env, false, f.fall, true);
    var h := LowerAll(cases.body, f);
    PendingFresh(g, h, p, outer, end);
    LeaveTidy(g, h, end, miss, p, outer);
    assert p - {miss} == ClauseBlocks(rest, b + 1, end);
    var k := Move(Leave(h, end), miss);
    TidyIs(g, k, p - {miss}, outer);
    PendingFresh(g, h, p, outer, miss);
    LeaveElsewhere(h, end, miss);
    TidyIgnores(g, k, k.(fall := NoTarget), p - {miss}, outer);
    AtRest(rest, b + 1, end, k.(fall := NoTarget)) by { assert k.cur == miss; }
  }

  lemma LeaveElsewhere(g: Gen, bb: BlockId, b: BlockId)
    requires Ok(g) && b < |g.blocks| && b != g.cur
    ensures Leave(g, bb).blocks[b] == g.blocks[b]
  {
  }

  lemma AtRest(cases: S.Cases, b: BlockId, end: BlockId, f: Gen)
    requires !cases.Case? ==> f.cur == BodyBlock(cases, b, end)
    ensures AtClause(cases, b, end, f)
  {
  }

  lemma {:induction false} CasesTidy(g: Gen, ctx: S.Ctx, f: Gen, t: LoopTarget, cases: S.Cases, b: BlockId, end: BlockId, v: Typed,
                                     env: S.Env, ty: S.Ty, rep: nat)
    requires TargetsOk(g, ctx) && ctx.depth < S.MAX_NESTING
    requires S.LegalCases(cases, env, ctx.depth + 1, ty, rep)
    requires ClauseState(g, ctx, f, t, cases, b, end)
    ensures SwitchLowered(g, ctx, t, end, LowerCases(cases, b, end, v, f))
    decreases cases, 2
  {
    TargetsHave(g, ctx);
    TidyIs(g, f, ClauseBlocks(cases, b, end), Outer(g, ctx));
    match cases
    case NoCase =>
    case Default(body) =>
      hide LowerAll, TidyOpen, Tidy, Open, Closed, NoPhi, TargetsOk, HasTargets, Outer, Leave, S.LegalAll, S.HasSwitchAll;
      BodyTidy(g, ctx, f, t, {end}, body, env, false, NoTarget, false);
      var h := LowerAll(body, f);
      PendingFresh(g, h, {end}, Outer(g, ctx), end);
      LeaveTidy(g, h, end, end, {end}, Outer(g, ctx));
      assert {end} - {end} == {};
    case Case(_, _, _) =>
      CaseTidy(g, ctx, f, t, cases, b, end, v, env, ty, rep);
  }

  lemma ClauseIs(g: Gen, ctx: S.Ctx, f: Gen, t: LoopTarget, cases: S.Cases, b: BlockId, end: BlockId)
    requires HasTargets(g, ctx) && ClauseState(g, ctx, f, t, cases, b, end)
    ensures Ok(f) && end < b && b + CountClauses(cases) <= |f.blocks| && f.loops == g.loops + [t] && t == LoopTarget(NoTarget, end)
  {
  }

  lemma {:induction false} CaseTidy(g: Gen, ctx: S.Ctx, f: Gen, t: LoopTarget, cases: S.Cases, b: BlockId, end: BlockId, v: Typed,
                                    env: S.Env, ty: S.Ty, rep: nat)
    requires TargetsOk(g, ctx) && ctx.depth < S.MAX_NESTING && cases.Case?
    requires S.LegalCases(cases, env, ctx.depth + 1, ty, rep)
    requires ClauseState(g, ctx, f, t, cases, b, end)
    ensures SwitchLowered(g, ctx, t, end, LowerCases(cases, b, end, v, f))
    decreases cases, 1
  {
    hide LowerAll, TidyOpen, Tidy, TargetsOk, HasTargets, Outer, ClauseBlocks, Leave, S.LegalAll, ClauseStart, ClauseState, CountClauses, BodyBlock, S.HasType, S.Rep, Later, NoPhi;
    TargetsHave(g, ctx);
    ClauseIs(g, ctx, f, t, cases, b, end);
    ClauseStartTidy(g, ctx, f, t, cases, b, end, v);
    var (f1, miss) := ClauseStart(cases, b, end, v, f);
    ClauseTidy(g, ctx, f1, t, cases, b, end, miss, env, ty, rep);
    CasesTidy(g, ctx, LowerClause(cases, b, end, v, f), t, cases.rest, b + 1, end, v, env, ty, rep);
  }

  /** Evaluate the switch value and append the blocks. */
  lemma SwitchHeadTidy(st: S.Stmt, g: Gen, ctx: S.Ctx)
    requires st.Switch? && st.cases.Case? && Ready(g) && TargetsOk(g, ctx) && ctx.depth < S.MAX_NESTING
    ensures var g1 := LowerExpr(st.e, g).0;
      var t := LoopTarget(NoTarget, |g1.blocks|);
      ClauseState(g, ctx, SwitchHead(st.cases, g1), t, st.cases, |g1.blocks| + 1, |g1.blocks|)
  {
    hide LowerExpr, TidyOpen, Tidy, TargetsOk, HasTargets, Outer, Push;
    TargetsHave(g, ctx);
    ReadyOk(g);
    var g1 := LowerExpr(st.e, g).0;
    ExprTidy(st.e, g);
    ReadyAfter(g, g1, {}, {});
    var end, n := |g1.blocks|, 1 + CountClauses(st.cases);
    var g2 := NewBlocks(g1, n);
    NewBlocksTidy(g1, n);
    OuterSmall(g, ctx);
    TidyAfter(g, g1, g2, Ids(end, n), Outer(g, ctx));
    assert Ids(end, n) == {end} + Ids(end + 1, n - 1);
    DepthSmall(g, ctx);
    PushLoops(g2, LoopTarget(NoTarget, end));
    TidyIgnores(g, g2, SwitchHead(st.cases, g1), Ids(end, n), Outer(g, ctx));
  }

  lemma {:induction false} SwitchTidy(st: S.Stmt, g: Gen, env: S.Env, ctx: S.Ctx)
    requires st.Switch? && S.Legal(st, env, ctx) && Ready(g) && TargetsOk(g, ctx)
    ensures Lowered(g, ctx, LowerSwitch(st, g), false, S.HasSwitch(st))
    decreases st, 0
  {
    hide LowerExpr, TidyOpen, Tidy, TargetsOk, HasTargets, Outer, SwitchHead, LowerCases, Lowered, Pop, ClauseState;
    TargetsHave(g, ctx);
    ReadyOk(g);
    var (g1, v) := LowerExpr(st.e, g);
    var end := |g1.blocks|;
    SwitchHeadTidy(st, g, ctx);
    var ty :| S.HasType(st.e, env, ty) && S.LegalCases(st.cases, env, ctx.depth + 1, ty, S.Rep(st.e));
    var f, t := SwitchHead(st.cases, g1), LoopTarget(NoTarget, end);
    CasesTidy(g, ctx, f, t, st.cases, end + 1, end, v, env, ty, S.Rep(st.e));
    PopTidy(g, ctx, LowerCases(st.cases, end + 1, end, v, f), t, end, true);
  }
}
