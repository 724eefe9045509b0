module Procedures {
  // Whole procedures: the emitted graph is well formed, and running it does what the body does.

  import opened Words
  import opened Cfg
  import opened Lower
  import opened Statements
  import opened Growth
  import opened Shape
  import opened ExprShape
  import opened StmtShape
  import opened Simulation
  import opened Arithmetic
  import opened ExprCorrect
  import S = Source
  import opened StmtCorrect

  const ROOT := S.Ctx(false, false, false, 0)

  /** Where the machine must halt for a procedure whose body ends with flow f. */
  ghost predicate Halts(f: S.Flow, void: bool, d: Config) {
    match f
    case Normal(s) => if void then d.ReturnedVoid? && MemOk(s, d.mem) else d.Returned? && d.value == 0 && MemOk(s, d.mem)
    case Returned(v, s) => d.Returned? && d.value == Encode(v) && MemOk(s, d.mem)
    case ReturnedVoid(s) => d.ReturnedVoid? && MemOk(s, d.mem)
    case Trap => d == Trapped
    case Undef => d == Stuck
    case _ => false
  }

  /** The emitted code of a procedure preserves meaning: for every terminating run of the source the machine halts with
      the same result and the same variables; it traps exactly when the source reads or writes out of bounds. */
  lemma ProcedureRuns(body: S.Stmts, env: S.Env, s: S.Store, mem: Memory, checks: bool, void: bool, fuel: nat) returns (n: nat, d: Config)
    requires S.LegalAll(body, env, ROOT) && S.Fits(s, env) && MemOk(s, mem)
    requires !S.ExecAll(body, s, checks, fuel).OutOfFuel?
    ensures Halts(S.ExecAll(body, s, checks, fuel), void, d)
    ensures forall m | m >= n :: Run(LowerProcedure(body, checks, void), Running(0, 0, 0, map[], mem), m) == d
  {
    var g := Gen([[]], 0, 0, 0, [], NoTarget, checks);
    var c := Running(0, 0, 0, map[], mem);
    var code := LowerProcedure(body, checks, void);
    assert Preds(g.blocks, 0) == {} && Ready(g) && TargetsOk(g, ROOT);
    hide LowerAll, Reached, Ready, TargetsOk, MemOk, S.Fits, S.LegalAll, S.ExecAll, Run, Halts;
    var h := LowerAll(body, g);
    ProcedureCode(body, checks, void);
    n, d := AllRuns(code, body, env, ROOT, s, g, c, fuel);
    var f, after := S.ExecAll(body, s, checks, fuel), EnvAll(body, env);
    var p := PlacesOf(g, ROOT);
    assert p == Places(NoTarget, NoTarget, NoTarget);
    if f.Normal? {
      NormalEnd(f, env, after, p, c, g.regs, h, d);
      OpenNotTerminated(h.blocks[h.cur]);
      var c1, i := d, if void then RetVoid else Ret(Imm(0));
      StepEmitted(code, h, i, c1);
      d := Run(code, c1, 1);
      Then(code, c, n, c1, 1, d);
      n := n + 1;
      HaltsAfter(f, void, c1, d);
    } else {
      HaltsAbrupt(f, env, after, p, c, g.regs, h, void, d);
    }
    StaysHalted(code, c, n, d, f, void);
  }

  /** The source has not ended within any number of loop iterations. */
  ghost predicate NeverEnds(body: S.Stmts, s: S.Store, checks: bool) {
    forall fuel: nat :: S.ExecAll(body, s, checks, fuel).OutOfFuel?
  }

  ghost predicate NeverHalts(code: seq<Block>, c: Config) { forall m: nat :: Run(code, c, m).Running? }

  /** A procedure runs for ever exactly when its source does. */
  lemma ProcedureDiverges(body: S.Stmts, env: S.Env, s: S.Store, mem: Memory, checks: bool, void: bool)
    requires S.LegalAll(body, env, ROOT) && S.Fits(s, env) && MemOk(s, mem)
    ensures NeverEnds(body, s, checks) <==> NeverHalts(LowerProcedure(body, checks, void), Running(0, 0, 0, map[], mem))
  {
    hide S.LegalAll, S.Fits, MemOk, S.ExecAll, Run, LowerProcedure;
    var code, c := LowerProcedure(body, checks, void), Running(0, 0, 0, map[], mem);
    if !NeverEnds(body, s, checks) {
      var fuel: nat :| !S.ExecAll(body, s, checks, fuel).OutOfFuel?;
      var n, d := ProcedureRuns(body, env, s, mem, checks, void, fuel);
      assert !Run(code, c, n).Running?;
      assert !NeverHalts(code, c);
    } else {
      forall m: nat ensures Run(code, c, m).Running? {
        assert S.ExecAll(body, s, checks, m).OutOfFuel?;
        var n, d := ProcedureGoesOn(body, env, s, mem, checks, void, m);
        if !Run(code, c, m).Running? {
          RunPlus(code, c, m, n - m);
          RunHalted(code, Run(code, c, m), n - m);
        }
      }
    }
  }

  /** When the source has not finished within some fuel, the machine is still running after as many steps. */
  lemma ProcedureGoesOn(body: S.Stmts, env: S.Env, s: S.Store, mem: Memory, checks: bool, void: bool, fuel: nat) returns (n: nat, d: Config)
    requires S.LegalAll(body, env, ROOT) && S.Fits(s, env) && MemOk(s, mem)
    requires S.ExecAll(body, s, checks, fuel).OutOfFuel?
    ensures n >= fuel && d.Running? && d == Run(LowerProcedure(body, checks, void), Running(0, 0, 0, map[], mem), n)
  {
    var g := Gen([[]], 0, 0, 0, [], NoTarget, checks);
    assert Preds(g.blocks, 0) == {} && Ready(g) && TargetsOk(g, ROOT);
    hide LowerAll, Ready, TargetsOk, MemOk, S.Fits, S.LegalAll, S.ExecAll, Run;
    ProcedureCode(body, checks, void);
    n, d := AllRuns(LowerProcedure(body, checks, void), body, env, ROOT, s, g, Running(0, 0, 0, map[], mem), fuel);
  }

  lemma ProcedureCode(body: S.Stmts, checks: bool, void: bool)
    ensures var h := LowerAll(body, Gen([[]], 0, 0, 0, [], NoTarget, checks));
      var code := LowerProcedure(body, checks, void);
      Ext(code, h.blocks) && (!Terminated(h.blocks[h.cur]) ==> code == Emit(h, if void then RetVoid else Ret(Imm(0))).blocks)
  {
    hide LowerAll;
    var h := LowerAll(body, Gen([[]], 0, 0, 0, [], NoTarget, checks));
    if !Terminated(h.blocks[h.cur]) { DefineGrows(h, if void then RetVoid else Ret(Imm(0))); }
  }

  lemma HaltsAfter(f: S.Flow, void: bool, c: Config, d: Config)
    requires f.Normal? && c.Running? && MemOk(f.s, c.mem) && d == StepInstr(if void then RetVoid else Ret(Imm(0)), c)
    ensures Halts(f, void, d)
  {
  }

  lemma HaltsAbrupt(f: S.Flow, env: S.Env, after: S.Env, p: Places, c: Config, k: nat, h: Gen, void: bool, d: Config)
    requires Reached(f, env, after, p, c, k, h, d) && p == Places(NoTarget, NoTarget, NoTarget) && !f.Normal? && !f.OutOfFuel?
    ensures Halts(f, void, d)
  {
  }

  lemma StaysHalted(code: seq<Block>, c: Config, n: nat, d: Config, f: S.Flow, void: bool)
    requires d == Run(code, c, n) && Halts(f, void, d)
    ensures forall m | m >= n :: Run(code, c, m) == d
  {
    forall m | m >= n ensures Run(code, c, m) == d {
      RunPlus(code, c, n, m - n);
      RunHalted(code, d, m - n);
    }
  }

  /** However the body nests and jumps, the finished graph is well formed: every block has exactly one terminator, at its
      end, all jumps lead to existing blocks, and every phi lists exactly the predecessors of its block. */
  lemma ProcedureTidy(body: S.Stmts, env: S.Env, checks: bool, void: bool)
    requires S.LegalAll(body, env, ROOT)
    ensures var code := LowerProcedure(body, checks, void);
      NoDangling(code) && forall b | 0 <= b < |code| :: Closed(code[b]) && PhiExact(code, b)
  {
    var g := Gen([[]], 0, 0, 0, [], NoTarget, checks);
    assert Preds(g.blocks, 0) == {} && Ready(g) && TargetsOk(g, ROOT);
    AllTidy(body, g, env, ROOT);
    var h := LowerAll(body, g);
    if Terminated(h.blocks[h.cur]) {
      OpenOrClosed(h.blocks[h.cur]);
      ClosedGraph(g, h);
    } else {
      var i := if void then RetVoid else Ret(Imm(0));
      ExitTidy(h, i, {});
      TidyTrans(g, h, Emit(h, i), {}, {}, {});
      ClosedGraph(g, Emit(h, i));
    }
  }

  lemma ClosedGraph(g: Gen, h: Gen)
    requires g.blocks == [[]] && Tidy(g, h, {}, {}) && Closed(h.blocks[h.cur])
    ensures NoDangling(h.blocks) && forall b | 0 <= b < |h.blocks| :: Closed(h.blocks[b]) && PhiExact(h.blocks, b)
  {
    hide Closed, Preds;
  }
}
