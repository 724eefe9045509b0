module Fallthrough {
  // `fallthrough` behind a nested switch: lowering any switch forgets the block to fall through to, so the statement is
  // dropped and control goes to the end of the switch.

  import opened Words
  import opened Cfg
  import opened Lower
  import opened Statements
  import opened Simulation
  import opened Shape
  import opened ExprShape
  import opened StmtShape
  import opened StmtCorrect
  import opened Procedures
  import S = Source

  function Append(ss: S.Stmts, st: S.Stmt): S.Stmts {
    match ss
    case Nil => S.Cons(st, S.Nil)
    case Cons(head, tail) => S.Cons(head, Append(tail, st))
  }

  lemma {:induction false} LowerAppend(ss: S.Stmts, st: S.Stmt, g: Gen)
    requires Ok(g)
    ensures LowerAll(Append(ss, st), g) == LowerStmt(st, LowerAll(ss, g))
    decreases ss
  {
    hide LowerStmt;
    match ss
    case Nil => assert LowerAll(S.Nil, LowerStmt(st, g)) == LowerStmt(st, g);
    case Cons(head, tail) => LowerAppend(tail, st, LowerStmt(head, g));
  }

  /** Where a clause may fall through, a fallthrough behind these statements is lowered to nothing exactly when there is
      a switch among them; otherwise it jumps to the next clause's body. */
  lemma Dropped(front: S.Stmts, g: Gen, env: S.Env, ctx: S.Ctx)
    requires S.LegalAll(front, env, ctx) && !S.ExitsAll(front) && Ready(g) && TargetsOk(g, ctx) && ctx.canFall
    ensures Ok(g) && g.fall.To?
    ensures LowerAll(Append(front, S.Fallthrough), g) == LowerAll(front, g) <==> S.HasSwitchAll(front)
    ensures !S.HasSwitchAll(front) ==> LowerAll(Append(front, S.Fallthrough), g) == Emit(LowerAll(front, g), Br(g.fall.bb))
  {
    hide LowerAll, Ready, TargetsOk, HasTargets, S.LegalAll, S.HasSwitchAll, S.ExitsAll, Lowered;
    ReadyOk(g);
    TargetsHave(g, ctx);
    FallTarget(g, ctx);
    AllTidy(front, g, env, ctx);
    var h := LowerAll(front, g);
    FallAfter(g, ctx, h, S.ExitsAll(front), S.HasSwitchAll(front));
    LowerAppend(front, S.Fallthrough, g);
    if !S.HasSwitchAll(front) { assert |Emit(h, Br(g.fall.bb)).blocks[h.cur]| == |h.blocks[h.cur]| + 1; }
  }

  lemma FallTarget(g: Gen, ctx: S.Ctx)
    requires TargetsOk(g, ctx) && ctx.canFall
    ensures g.fall.To?
  {
  }

  lemma FallAfter(g: Gen, ctx: S.Ctx, h: Gen, exits: bool, sw: bool)
    requires HasTargets(g, ctx) && Lowered(g, ctx, h, exits, sw) && !exits
    ensures h.fall == if sw then NoTarget else g.fall
  {
  }

  // ---- a program ----

  /** switch 1 { case 1: }, inside a clause that falls through or not. */
  const INNER := S.Switch(S.IntLit(1), S.Case(S.IntLit(1), S.Nil, S.NoCase))
  const FRONT := S.Cons(INNER, S.Nil)
  const SECOND := S.Cons(S.Return(S.IntLit(7), S.IntT), S.Nil)

  function Clauses(body: S.Stmts): S.Cases { S.Case(S.IntLit(1), body, S.Case(S.IntLit(2), SECOND, S.NoCase)) }

  /** switch 1 { case 1: body  case 2: return 7 }  return 9 */
  function Program(body: S.Stmts): S.Stmts {
    S.Cons(S.Switch(S.IntLit(1), Clauses(body)), S.Cons(S.Return(S.IntLit(9), S.IntT), S.Nil))
  }

  /** With a fallthrough behind the nested switch the source returns 7 from the second clause; the emitted procedure
      returns 9, as it does without the fallthrough. */
  lemma FallthroughLost(checks: bool) returns (n: nat, d: Config)
    ensures S.ExecAll(Program(Append(FRONT, S.Fallthrough)), map[], checks, 0) == S.Returned(S.I(7), map[])
    ensures S.ExecAll(Program(FRONT), map[], checks, 0) == S.Returned(S.I(9), map[])
    ensures d.Returned? && d.value == 9
    ensures forall m | m >= n ::
      Run(LowerProcedure(Program(Append(FRONT, S.Fallthrough)), checks, false), Running(0, 0, 0, map[], map[]), m) == d
  {
    hide LowerProcedure, Run;
    SourceReturns(checks);
    FrontLegal();
    SameProcedure(checks);
    n, d := ProcedureRuns(Program(FRONT), map[], map[], map[], checks, false, 0);
    assert ToWord(9) == 9;
  }

  lemma InnerReturns(s: S.Store, checks: bool)
    ensures S.Exec(INNER, s, checks, 0) == S.Normal(s)
    ensures S.ExecAll(FRONT, s, checks, 0) == S.Normal(s)
    ensures S.ExecAll(Append(FRONT, S.Fallthrough), s, checks, 0) == S.Fell(s)
    ensures S.ExecAll(SECOND, s, checks, 0) == S.Returned(S.I(7), s)
  {
    assert S.ExecAll(S.Nil, s, checks, 0) == S.Normal(s);
    assert S.RunFrom(INNER.cases, s, checks, 0) == S.Normal(s);
    assert S.Select(S.I(1), INNER.cases, s, checks, 0) == S.Normal(s);
    assert S.Exec(INNER, s, checks, 0) == S.Normal(s);
    assert Append(FRONT, S.Fallthrough) == S.Cons(INNER, S.Cons(S.Fallthrough, S.Nil));
    assert S.ExecAll(S.Cons(S.Fallthrough, S.Nil), s, checks, 0) == S.Fell(s) by { assert S.Exec(S.Fallthrough, s, checks, 0) == S.Fell(s); }
    assert S.ExecAll(SECOND, s, checks, 0) == S.Returned(S.I(7), s) by { assert S.Exec(SECOND.head, s, checks, 0) == S.Returned(S.I(7), s); }
  }

  /** What the program does, given what the first clause's body does. */
  lemma ProgramReturns(body: S.Stmts, s: S.Store, checks: bool)
    requires var f := S.ExecAll(body, s, checks, 0); f == S.Normal(s) || f == S.Fell(s)
    ensures S.ExecAll(Program(body), s, checks, 0) == S.Returned(S.I(if S.ExecAll(body, s, checks, 0).Fell? then 7 else 9), s)
  {
    hide S.ExecAll;
    var st, rest := Program(body).head, Program(body).tail;
    InnerReturns(s, checks);
    assert S.RunFrom(Clauses(body).rest, s, checks, 0) == S.Returned(S.I(7), s);
    assert S.Exec(st, s, checks, 0) == S.AfterSwitch(S.RunFrom(Clauses(body), s, checks, 0)) by {
      assert S.Select(S.I(1), Clauses(body), s, checks, 0) == S.RunFrom(Clauses(body), s, checks, 0);
    }
    ListReturns(st, rest, s, checks);
    ListReturns(rest.head, S.Nil, s, checks);
    assert S.Exec(rest.head, s, checks, 0) == S.Returned(S.I(9), s);
  }

  lemma ListReturns(st: S.Stmt, rest: S.Stmts, s: S.Store, checks: bool)
    ensures var f := S.Exec(st, s, checks, 0);
      S.ExecAll(S.Cons(st, rest), s, checks, 0) == if f.Normal? then S.ExecAll(rest, f.s, checks, 0) else f
  {
    hide S.Exec;
  }

  lemma SourceReturns(checks: bool)
    ensures S.ExecAll(Program(Append(FRONT, S.Fallthrough)), map[], checks, 0) == S.Returned(S.I(7), map[])
    ensures S.ExecAll(Program(FRONT), map[], checks, 0) == S.Returned(S.I(9), map[])
  {
    hide S.ExecAll, Append;
    InnerReturns(map[], checks);
    ProgramReturns(FRONT, map[], checks);
    ProgramReturns(Append(FRONT, S.Fallthrough), map[], checks);
  }

  lemma FrontLegal()
    ensures S.LegalAll(Program(FRONT), map[], ROOT)
  {
    var env: S.Env := map[];
    var c1, c2 := S.Ctx(true, false, true, 1), S.Ctx(true, false, true, 2);
    assert S.LegalCases(INNER.cases, env, 2, S.IntT, 64) by { assert S.LegalAll(S.Nil, env, c2); }
    assert S.Legal(INNER, env, c1) by { assert S.HasType(INNER.e, env, S.IntT) && S.Rep(INNER.e) == 64; }
    assert S.LegalAll(FRONT, env, c1);
    assert S.LegalAll(SECOND, env, c1) by { assert S.Legal(SECOND.head, env, c1); }
    assert S.LegalCases(S.Case(S.IntLit(2), SECOND, S.NoCase), env, 1, S.IntT, 64);
    assert S.LegalCases(Clauses(FRONT), env, 1, S.IntT, 64);
    var st, rest := Program(FRONT).head, Program(FRONT).tail;
    assert S.NumCases(Clauses(FRONT)) == 2;
    assert S.Legal(st, env, ROOT) by { assert S.HasType(st.e, env, S.IntT) && S.Rep(st.e) == 64; }
    assert S.LegalAll(rest, env, S.Ctx(false, false, false, 0)) by { assert S.Legal(rest.head, env, ROOT); }
  }

  /** A switch with a single clause forgets the target. */
  lemma Forgets(st: S.Stmt, g: Gen)
    requires Ok(g) && st.Switch? && st.cases.Case? && st.cases.rest == S.NoCase
    ensures LowerStmt(st, g).fall == NoTarget
  {
    hide LowerExpr, SwitchHead, LowerStmt, LowerCases;
    SwitchIs(st, g);
    var (g1, v) := LowerExpr(st.e, g);
    OnlyClause(st.cases, |g1.blocks| + 1, |g1.blocks|, v, SwitchHead(st.cases, g1));
  }

  lemma OnlyClause(cases: S.Cases, b: BlockId, end: BlockId, v: Typed, g: Gen)
    requires cases.Case? && cases.rest == S.NoCase && Ok(g) && end < |g.blocks| && b + CountClauses(cases) <= |g.blocks|
    ensures LowerCases(cases, b, end, v, g).fall == NoTarget
  {
    hide LowerAll, ClauseStart, Leave;
    var h := LowerClause(cases, b, end, v, g);
    assert LowerCases(S.NoCase, b + 1, end, v, h) == h;
  }

  lemma SameClause(g: Gen)
    requires Ok(g)
    ensures LowerAll(Append(FRONT, S.Fallthrough), g) == LowerAll(FRONT, g)
  {
    hide LowerSwitch;
    Forgets(INNER, g);
    LowerAppend(FRONT, S.Fallthrough, g);
    assert LowerAll(FRONT, g) == LowerStmt(INNER, g) by { assert LowerAll(S.Nil, LowerStmt(INNER, g)) == LowerStmt(INNER, g); }
  }

  lemma SwitchIs(st: S.Stmt, g: Gen)
    requires Ok(g) && st.Switch?
    ensures var (g1, v) := LowerExpr(st.e, g);
      var end := |g1.blocks|;
      LowerStmt(st, g) == Move(Pop(LowerCases(st.cases, end + 1, end, v, SwitchHead(st.cases, g1))), end)
  {
    hide LowerExpr, SwitchHead, LowerCases, Pop;
    assert LowerStmt(st, g) == LowerSwitch(st, g);
  }

  /** The first clauses differ only in their bodies, and those are lowered alike. */
  ghost predicate Alike(cs: S.Cases, cs': S.Cases) {
    && cs.Case? && cs'.Case? && cs.value == cs'.value && cs.rest == cs'.rest
    && forall f | Ok(f) :: LowerAll(cs.body, f) == LowerAll(cs'.body, f)
  }

  lemma SameSwitch(st: S.Stmt, st': S.Stmt, g: Gen)
    requires Ok(g) && st.Switch? && st'.Switch? && st.e == st'.e && Alike(st.cases, st'.cases)
    ensures LowerStmt(st, g) == LowerStmt(st', g)
  {
    hide LowerExpr, LowerCases, SwitchHead, LowerStmt, Alike;
    SwitchIs(st, g);
    SwitchIs(st', g);
    var (g1, v) := LowerExpr(st.e, g);
    SameHead(st.cases, st'.cases, g1);
    SameCases(st.cases, st'.cases, |g1.blocks| + 1, |g1.blocks|, v, SwitchHead(st.cases, g1));
  }

  lemma SameHead(cs: S.Cases, cs': S.Cases, g: Gen)
    requires Ok(g) && Alike(cs, cs')
    ensures SwitchHead(cs, g) == SwitchHead(cs', g) && CountClauses(cs) == CountClauses(cs')
  {
    hide LowerAll;
  }

  lemma SameCases(cs: S.Cases, cs': S.Cases, b: BlockId, end: BlockId, v: Typed, g: Gen)
    requires Ok(g) && end < |g.blocks| && b + CountClauses(cs) <= |g.blocks| && CountClauses(cs) == CountClauses(cs') && Alike(cs, cs')
    ensures LowerCases(cs, b, end, v, g) == LowerCases(cs', b, end, v, g)
  {
    hide LowerAll, ClauseStart, Leave;
    SameStart(cs, cs', b, end, v, g);
    assert LowerClause(cs, b, end, v, g) == LowerClause(cs', b, end, v, g);
  }

  lemma SameStart(cs: S.Cases, cs': S.Cases, b: BlockId, end: BlockId, v: Typed, g: Gen)
    requires Ok(g) && end < |g.blocks| && b + CountClauses(cs) <= |g.blocks| && CountClauses(cs) == CountClauses(cs') && Alike(cs, cs')
    ensures ClauseStart(cs, b, end, v, g) == ClauseStart(cs', b, end, v, g)
  {
    hide LowerAll, CaseTest;
  }

  lemma ListIs(ss: S.Stmts, g: Gen)
    requires Ok(g) && ss.Cons?
    ensures LowerAll(ss, g) == LowerAll(ss.tail, LowerStmt(ss.head, g))
  {
    hide LowerStmt;
  }

  lemma SameProcedure(checks: bool)
    ensures LowerProcedure(Program(Append(FRONT, S.Fallthrough)), checks, false) == LowerProcedure(Program(FRONT), checks, false)
  {
    hide LowerStmt, LowerAll, Append;
    var body, body' := Append(FRONT, S.Fallthrough), FRONT;
    var g := Gen([[]], 0, 0, 0, [], NoTarget, checks);
    forall f | Ok(f) ensures LowerAll(body, f) == LowerAll(body', f) { SameClause(f); }
    SameSwitch(Program(body).head, Program(body').head, g);
    ListIs(Program(body), g);
    ListIs(Program(body'), g);
  }
}
