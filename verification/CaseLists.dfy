module CaseLists {
  // Clauses with several values, and switches without an expression. The generator compares with the first value of a
  // clause only and lowers the others as statements in front of the body; a switch without an expression is dropped.

  import opened Words
  import opened Cfg
  import opened Lower
  import opened Statements
  import opened Simulation
  import opened Shape
  import opened ExprShape
  import opened StmtShape
  import opened StmtCorrect
  import opened Procedures
  import S = Source

  /** The clauses of a switch, with all their values. */
  datatype Clauses = NoClause | Otherwise(body: S.Stmts) | Clause(first: S.Expr, more: seq<S.Expr>, body: S.Stmts, rest: Clauses)

  /** The values behind the first one become statements. */
  function Effects(values: seq<S.Expr>, body: S.Stmts): S.Stmts {
    if values == [] then body else S.Cons(S.ExprStmt(values[0]), Effects(values[1..], body))
  }

  /** What is lowered for the clauses. */
  function Kept(cs: Clauses): S.Cases {
    match cs
    case NoClause => S.NoCase
    case Otherwise(body) => S.Default(body)
    case Clause(first, more, body, rest) => S.Case(first, Effects(more, body), Kept(rest))
  }

  // ---- what the clauses mean ----

  datatype Try = Hit | Miss | Fails(o: S.Outcome)

  /** Compare with one value after the other. */
  function Tried(x: S.Value, values: seq<S.Expr>, s: S.Store, checks: bool): (t: Try)
    ensures t.Fails? ==> !t.o.Val?
  {
    if values == [] then Miss else
      var o := S.Eval(values[0], s, checks);
      if !o.Val? then Fails(o) else if o.v == x then Hit else Tried(x, values[1..], s, checks)
  }

  /** The source enters the first clause that has the value among its own. */
  function Select(x: S.Value, cs: Clauses, s: S.Store, checks: bool, fuel: nat): S.Flow {
    match cs
    case NoClause => S.Normal(s)
    case Otherwise(body) => S.ExecAll(body, s, checks, fuel)
    case Clause(first, more, _, rest) =>
      match Tried(x, [first] + more, s, checks)
      case Hit => RunFrom(cs, s, checks, fuel)
      case Miss => Select(x, rest, s, checks, fuel)
      case Fails(o) => S.Failure(o)
  }

  function RunFrom(cs: Clauses, s: S.Store, checks: bool, fuel: nat): S.Flow {
    match cs
    case NoClause => S.Normal(s)
    case Otherwise(body) => S.ExecAll(body, s, checks, fuel)
    case Clause(_, _, body, rest) =>
      var f := S.ExecAll(body, s, checks, fuel);
      if f.Fell? then RunFrom(rest, f.s, checks, fuel) else f
  }

  lemma TriedFirst(x: S.Value, first: S.Expr, more: seq<S.Expr>, s: S.Store, checks: bool)
    ensures var o := S.Eval(first, s, checks);
      Tried(x, [first] + more, s, checks) == if !o.Val? then Fails(o) else if o.v == x then Hit else Tried(x, more, s, checks)
  {
    assert ([first] + more)[1..] == more;
  }

  // ---- which clause is entered ----

  /** How many clauses are passed over, and what ends the search; a miss if it comes to the default or the end. */
  datatype Stop = Stop(clause: nat, how: Try)

  function Later(stop: Stop): Stop { stop.(clause := stop.clause + 1) }

  function Chosen(x: S.Value, cs: Clauses, s: S.Store, checks: bool): Stop {
    if !cs.Clause? then Stop(0, Miss) else
      var t := Tried(x, [cs.first] + cs.more, s, checks);
      if t.Miss? then Later(Chosen(x, cs.rest, s, checks)) else Stop(0, t)
  }

  function ChosenInCode(x: S.Value, cs: S.Cases, s: S.Store, checks: bool): Stop {
    if !cs.Case? then Stop(0, Miss) else
      var o := S.Eval(cs.value, s, checks);
      if !o.Val? then Stop(0, Fails(o)) else if o.v == x then Stop(0, Hit) else Later(ChosenInCode(x, cs.rest, s, checks))
  }

  /** No value but the first of a clause ends the search. */
  predicate MetFirst(x: S.Value, cs: Clauses, s: S.Store, checks: bool) {
    cs.Clause? ==>
      var o := S.Eval(cs.first, s, checks);
      o.Val? && o.v != x ==> Tried(x, cs.more, s, checks).Miss? && MetFirst(x, cs.rest, s, checks)
  }

  /** In any store the emitted comparisons end where the source's do exactly when no later value ends the search. */
  lemma {:induction false} EntersSame(x: S.Value, cs: Clauses, s: S.Store, checks: bool)
    ensures Chosen(x, cs, s, checks) == ChosenInCode(x, Kept(cs), s, checks) <==> MetFirst(x, cs, s, checks)
    decreases cs
  {
    match cs
    case NoClause =>
    case Otherwise(_) =>
    case Clause(first, more, _, rest) =>
      TriedFirst(x, first, more, s, checks);
      EntersSame(x, rest, s, checks);
  }

  // ---- when the emitted switch does what the source does ----

  /** The values are computed without failing. */
  predicate Valued(values: seq<S.Expr>, s: S.Store, checks: bool) { forall i | 0 <= i < |values| :: S.Eval(values[i], s, checks).Val? }

  /** Statements made of values do nothing unless one of them fails. */
  lemma {:induction false} EffectsRun(values: seq<S.Expr>, body: S.Stmts, s: S.Store, checks: bool, fuel: nat)
    requires Valued(values, s, checks)
    ensures S.ExecAll(Effects(values, body), s, checks, fuel) == S.ExecAll(body, s, checks, fuel)
    decreases |values|
  {
    if values != [] {
      EffectsRun(values[1..], body, s, checks, fuel);
      assert S.Eval(values[0], s, checks).Val?;
      assert S.Exec(S.ExprStmt(values[0]), s, checks, fuel) == S.Normal(s);
    }
  }

  /** From this clause on, the later values of every clause that is run are computed without failing. */
  predicate Quiet(cs: Clauses, s: S.Store, checks: bool, fuel: nat) {
    cs.Clause? ==>
      var f := S.ExecAll(cs.body, s, checks, fuel);
      Valued(cs.more, s, checks) && (f.Fell? ==> Quiet(cs.rest, f.s, checks, fuel))
  }

  /** The same for the clause that is entered. */
  predicate QuietEntered(x: S.Value, cs: Clauses, s: S.Store, checks: bool, fuel: nat) {
    cs.Clause? ==>
      var o := S.Eval(cs.first, s, checks);
      if o == S.Val(x) then Quiet(cs, s, checks, fuel) else (o.Val? ==> QuietEntered(x, cs.rest, s, checks, fuel))
  }

  lemma {:induction false} SameRun(cs: Clauses, s: S.Store, checks: bool, fuel: nat)
    requires Quiet(cs, s, checks, fuel)
    ensures S.RunFrom(Kept(cs), s, checks, fuel) == RunFrom(cs, s, checks, fuel)
    decreases cs
  {
    hide S.ExecAll, Valued;
    match cs
    case NoClause =>
    case Otherwise(_) =>
    case Clause(_, more, body, rest) =>
      EffectsRun(more, body, s, checks, fuel);
      var f := S.ExecAll(body, s, checks, fuel);
      if f.Fell? { SameRun(rest, f.s, checks, fuel); }
  }

  /** Then the whole switch does what the source does, fallthrough included. */
  lemma {:induction false} SameFlow(x: S.Value, cs: Clauses, s: S.Store, checks: bool, fuel: nat)
    requires MetFirst(x, cs, s, checks) && QuietEntered(x, cs, s, checks, fuel)
    ensures S.Select(x, Kept(cs), s, checks, fuel) == Select(x, cs, s, checks, fuel)
    decreases cs
  {
    hide S.ExecAll, S.RunFrom, RunFrom, Quiet, Tried;
    match cs
    case NoClause =>
    case Otherwise(_) =>
    case Clause(first, more, _, rest) =>
      TriedFirst(x, first, more, s, checks);
      var o := S.Eval(first, s, checks);
      if o == S.Val(x) { SameRun(cs, s, checks, fuel); } else if o.Val? { SameFlow(x, rest, s, checks, fuel); }
  }

  // ---- whatever the bodies do ----

  function Count(cs: Clauses): nat {
    match cs
    case NoClause => 0
    case Otherwise(_) => 1
    case Clause(_, _, _, rest) => 1 + Count(rest)
  }

  /** The same clauses with other bodies. */
  function Rebody(cs: Clauses, bodies: seq<S.Stmts>): Clauses
    requires |bodies| == Count(cs)
  {
    match cs
    case NoClause => NoClause
    case Otherwise(_) => Otherwise(bodies[0])
    case Clause(first, more, _, rest) => Clause(first, more, bodies[0], Rebody(rest, bodies[1..]))
  }

  /** Bodies that never fall through. */
  ghost predicate Stay(bodies: seq<S.Stmts>) {
    forall i: nat, t: S.Store, checks: bool, fuel: nat | i < |bodies| :: !S.ExecAll(bodies[i], t, checks, fuel).Fell?
  }

  /** The emitted switch does what the source does, whatever bodies without fallthrough the clauses have. */
  ghost predicate Right(x: S.Value, cs: Clauses, s: S.Store, checks: bool) {
    forall bodies: seq<S.Stmts>, fuel: nat | |bodies| == Count(cs) && Stay(bodies) ::
      S.Select(x, Kept(Rebody(cs, bodies)), s, checks, fuel) == Select(x, Rebody(cs, bodies), s, checks, fuel)
  }

  /** All values, as far as the switch goes, are computed without failing. */
  predicate AllValued(cs: Clauses, s: S.Store, checks: bool) {
    cs.Clause? ==> S.Eval(cs.first, s, checks).Val? && Valued(cs.more, s, checks) && AllValued(cs.rest, s, checks)
  }

  /** When no value fails, the emitted switch is right whatever the bodies do exactly when no later value is hit. */
  lemma RightExactly(x: S.Value, cs: Clauses, s: S.Store, checks: bool)
    requires AllValued(cs, s, checks)
    ensures Right(x, cs, s, checks) <==> MetFirst(x, cs, s, checks)
  {
    hide S.Select, Select, MetFirst, AllValued, Stay, Rebody, Kept, Chosen, ChosenInCode;
    EntersSame(x, cs, s, checks);
    if MetFirst(x, cs, s, checks) {
      forall bodies: seq<S.Stmts>, fuel: nat | |bodies| == Count(cs) && Stay(bodies)
        ensures S.Select(x, Kept(Rebody(cs, bodies)), s, checks, fuel) == Select(x, Rebody(cs, bodies), s, checks, fuel)
      {
        RebodyKeeps(x, cs, bodies, s, checks);
        StayQuiet(x, Rebody(cs, bodies), s, checks, fuel, bodies, cs);
        SameFlow(x, Rebody(cs, bodies), s, checks, fuel);
      }
    } else {
      ChosenValued(x, cs, s, checks);
      var n := Chosen(x, cs, s, checks).clause;
      OneReturns(n, Count(cs));
      EntersOne(x, cs, s, checks, n);
      assert Select(x, Rebody(cs, One(n, Count(cs))), s, checks, 0) != S.Select(x, Kept(Rebody(cs, One(n, Count(cs)))), s, checks, 0);
    }
  }

  lemma {:induction false} RebodyKeeps(x: S.Value, cs: Clauses, bodies: seq<S.Stmts>, s: S.Store, checks: bool)
    requires |bodies| == Count(cs)
    ensures MetFirst(x, Rebody(cs, bodies), s, checks) == MetFirst(x, cs, s, checks)
    decreases cs
  {
    if cs.Clause? { RebodyKeeps(x, cs.rest, bodies[1..], s, checks); }
  }

  lemma {:induction false} StayQuiet(x: S.Value, ds: Clauses, s: S.Store, checks: bool, fuel: nat, bodies: seq<S.Stmts>, cs: Clauses)
    requires AllValued(cs, s, checks) && |bodies| == Count(cs) && Stay(bodies) && ds == Rebody(cs, bodies)
    ensures QuietEntered(x, ds, s, checks, fuel)
    decreases cs
  {
    hide S.ExecAll, Valued;
    if cs.Clause? {
      var f := S.ExecAll(bodies[0], s, checks, fuel);
      assert Stay(bodies[1..]) by {
        forall i: nat, t: S.Store, b: bool, k: nat | i < |bodies[1..]| ensures !S.ExecAll(bodies[1..][i], t, b, k).Fell? {
          assert bodies[1..][i] == bodies[i + 1];
        }
      }
      StayQuiet(x, ds.rest, s, checks, fuel, bodies[1..], cs.rest);
    }
  }

  lemma {:induction false} TriedValued(x: S.Value, values: seq<S.Expr>, s: S.Store, checks: bool)
    requires Valued(values, s, checks)
    ensures !Tried(x, values, s, checks).Fails?
    decreases |values|
  {
    if values != [] {
      assert S.Eval(values[0], s, checks).Val?;
      TriedValued(x, values[1..], s, checks);
    }
  }

  /** Without failures the searches end with a hit or a miss, and the source's no later than the emitted one. */
  lemma {:induction false} ChosenValued(x: S.Value, cs: Clauses, s: S.Store, checks: bool)
    requires AllValued(cs, s, checks)
    ensures var a := Chosen(x, cs, s, checks); var b := ChosenInCode(x, Kept(cs), s, checks);
      && !a.how.Fails? && !b.how.Fails? && a.clause <= b.clause
      && (a != b ==> a.how.Hit? && a.clause < b.clause) && (a.how.Hit? ==> a.clause < Count(cs))
    decreases cs
  {
    if cs.Clause? {
      TriedFirst(x, cs.first, cs.more, s, checks);
      TriedValued(x, cs.more, s, checks);
      ChosenValued(x, cs.rest, s, checks);
    }
  }

  const RETURN := S.Cons(S.ReturnVoid, S.Nil)

  /** Only clause n has a body, and it returns. */
  function One(n: nat, count: nat): seq<S.Stmts> { seq(count, i requires 0 <= i < count => if i == n then RETURN else S.Nil) }

  lemma ReturnReturns(t: S.Store, checks: bool, fuel: nat)
    ensures S.ExecAll(RETURN, t, checks, fuel) == S.ReturnedVoid(t) && S.ExecAll(S.Nil, t, checks, fuel) == S.Normal(t)
  {
    assert S.Exec(S.ReturnVoid, t, checks, fuel) == S.ReturnedVoid(t);
  }

  lemma OneReturns(n: nat, count: nat)
    ensures Stay(One(n, count))
  {
    forall i: nat, t: S.Store, checks: bool, fuel: nat | i < count ensures !S.ExecAll(One(n, count)[i], t, checks, fuel).Fell? {
      ReturnReturns(t, checks, fuel);
    }
  }

  /** Entering clause n returns, entering another one does not. */
  lemma {:induction false} EntersOne(x: S.Value, cs: Clauses, s: S.Store, checks: bool, n: nat)
    requires AllValued(cs, s, checks)
    ensures var ds := Rebody(cs, One(n, Count(cs)));
      && (Chosen(x, cs, s, checks) == Stop(n, Hit) && n < Count(cs) ==> Select(x, ds, s, checks, 0) == S.ReturnedVoid(s))
      && (ChosenInCode(x, Kept(cs), s, checks).clause > n ==> S.Select(x, Kept(ds), s, checks, 0) == S.Normal(s))
    decreases cs
  {
    hide S.ExecAll, S.RunFrom, RunFrom, Tried, Effects, One;
    ReturnReturns(s, checks, 0);
    if cs.Clause? {
      var rest := cs.rest;
      OneBodies(n, Count(cs));
      TriedFirst(x, cs.first, cs.more, s, checks);
      TriedValued(x, cs.more, s, checks);
      OneRuns(cs, One(n, Count(cs)), s, checks);
      if n > 0 { EntersOne(x, rest, s, checks, n - 1); } else { NoneEntered(x, rest, s, checks); }
    }
  }

  lemma OneBodies(n: nat, count: nat)
    requires count > 0
    ensures |One(n, count)| == count && One(n, count)[0] == if n == 0 then RETURN else S.Nil
    ensures One(n, count)[1..] == if n == 0 then Empty(count - 1) else One(n - 1, count - 1)
  {
  }

  /** A first body that is empty or returns ends the run. */
  lemma OneRuns(cs: Clauses, bodies: seq<S.Stmts>, s: S.Store, checks: bool)
    requires cs.Clause? && |bodies| == Count(cs) && Valued(cs.more, s, checks) && !S.ExecAll(bodies[0], s, checks, 0).Fell?
    ensures RunFrom(Rebody(cs, bodies), s, checks, 0) == S.ExecAll(bodies[0], s, checks, 0)
    ensures S.RunFrom(Kept(Rebody(cs, bodies)), s, checks, 0) == S.ExecAll(bodies[0], s, checks, 0)
  {
    hide S.ExecAll, Effects;
    EffectsRun(cs.more, bodies[0], s, checks, 0);
  }

  function Empty(count: nat): seq<S.Stmts> { seq(count, _ => S.Nil) }

  /** With empty bodies nothing happens. */
  lemma {:induction false} NoneEntered(x: S.Value, cs: Clauses, s: S.Store, checks: bool)
    requires AllValued(cs, s, checks)
    ensures S.Select(x, Kept(Rebody(cs, Empty(Count(cs)))), s, checks, 0) == S.Normal(s)
    decreases cs
  {
    hide S.ExecAll;
    ReturnReturns(s, checks, 0);
    match cs
    case NoClause =>
    case Otherwise(_) =>
    case Clause(first, more, _, rest) =>
      EffectsRun(more, S.Nil, s, checks, 0);
      assert Empty(Count(cs))[1..] == Empty(Count(rest));
      NoneEntered(x, rest, s, checks);
  }

  // ---- the emitted code ----

  /** What the later values say in every store with the variables of env. */
  ghost predicate LaterValued(cs: Clauses, env: S.Env, checks: bool) {
    cs.Clause? ==> (forall t: S.Store | S.Fits(t, env) :: Valued(cs.more, t, checks)) && LaterValued(cs.rest, env, checks)
  }

  lemma {:induction false} BodyLegal(values: seq<S.Expr>, body: S.Stmts, env: S.Env, ctx: S.Ctx)
    requires S.LegalAll(Effects(values, body), env, ctx)
    ensures S.LegalAll(body, env, ctx)
    decreases |values|
  {
    if values != [] { BodyLegal(values[1..], body, env, ctx); }
  }

  /** A generator in the body of a clause at some depth of nesting, and a machine with these variables. */
  function Inside(depth: nat, checks: bool): Gen {
    Gen([[], []], 0, 0, 0, seq(depth, _ => LoopTarget(NoTarget, 1)), To(1), checks)
  }

  ghost function Holding(s: S.Store): Memory { map x | x in s :: SlotOf(x, s[x]) := Cells(s[x]) }

  lemma InsideReady(depth: nat, checks: bool)
    requires depth > 0
    ensures Ready(Inside(depth, checks)) && TargetsOk(Inside(depth, checks), S.Ctx(true, false, true, depth))
  {
    assert Preds(Inside(depth, checks).blocks, 0) == {};
  }

  lemma HoldingOk(s: S.Store)
    ensures MemOk(s, Holding(s))
  {
    hide Cells;
  }

  /** A legal body that falls through leaves the variables of its environment as they are declared: so does the machine
      that runs it. */
  lemma FellFits(body: S.Stmts, env: S.Env, depth: nat, s: S.Store, checks: bool, fuel: nat)
    requires S.LegalAll(body, env, S.Ctx(true, false, true, depth)) && depth > 0
    requires S.Fits(s, env) && S.ExecAll(body, s, checks, fuel).Fell?
    ensures S.Fits(S.ExecAll(body, s, checks, fuel).s, env)
  {
    hide LowerAll, Ready, TargetsOk, HasTargets, MemOk, S.Fits, S.LegalAll, S.ExecAll, Run, Holding, EnvAll, SameRegs, PlacesOf;
    var g, ctx := Inside(depth, checks), S.Ctx(true, false, true, depth);
    InsideReady(depth, checks);
    HoldingOk(s);
    var n, d := AllRuns(LowerAll(body, g).blocks, body, env, ctx, s, g, Running(0, 0, 0, map[], Holding(s)), fuel);
  }

  lemma {:induction false} FittingRunQuiet(cs: Clauses, env: S.Env, depth: nat, ty: S.Ty, rep: nat, s: S.Store, checks: bool, fuel: nat)
    requires S.LegalCases(Kept(cs), env, depth, ty, rep) && depth > 0 && S.Fits(s, env) && LaterValued(cs, env, checks)
    ensures Quiet(cs, s, checks, fuel)
    decreases cs
  {
    hide S.ExecAll, S.LegalAll, S.Fits, Valued, S.HasType;
    if cs.Clause? {
      var f := S.ExecAll(cs.body, s, checks, fuel);
      if f.Fell? {
        BodyLegal(cs.more, cs.body, env, S.Ctx(true, false, true, depth));
        FellFits(cs.body, env, depth, s, checks, fuel);
        FittingRunQuiet(cs.rest, env, depth, ty, rep, f.s, checks, fuel);
      }
    }
  }

  /** When the later values have a value in every store with the right variables, none fails, wherever control falls. */
  lemma {:induction false} FittingQuiet(x: S.Value, cs: Clauses, env: S.Env, depth: nat, ty: S.Ty, rep: nat, s: S.Store, checks: bool, fuel: nat)
    requires S.LegalCases(Kept(cs), env, depth, ty, rep) && depth > 0 && S.Fits(s, env) && LaterValued(cs, env, checks)
    ensures QuietEntered(x, cs, s, checks, fuel)
    decreases cs
  {
    hide S.ExecAll, S.LegalAll, S.Fits, Valued, S.HasType, Quiet;
    if cs.Clause? {
      FittingRunQuiet(cs, env, depth, ty, rep, s, checks, fuel);
      FittingQuiet(x, cs.rest, env, depth, ty, rep, s, checks, fuel);
    }
  }

  /** When no later value ends the search and none fails, the emitted code arrives where the source's switch over all
      values goes. */
  lemma SwitchListRuns(code: seq<Block>, e: S.Expr, cs: Clauses, x: S.Value, env: S.Env, ctx: S.Ctx, s: S.Store, g: Gen, c: Config, fuel: nat)
    returns (n: nat, d: Config)
    requires Begins(S.Switch(e, Kept(cs)), env, ctx, s, g, c)
    requires Ok(g) && Ext(code, LowerStmt(S.Switch(e, Kept(cs)), g).blocks)
    requires S.Eval(e, s, g.checks) == S.Val(x) && MetFirst(x, cs, s, g.checks)
    requires LaterValued(cs, env, g.checks) || QuietEntered(x, cs, s, g.checks, fuel)
    ensures d == Run(code, c, n) && HasTargets(g, ctx)
    ensures Reached(S.AfterSwitch(Select(x, cs, s, g.checks, fuel)), env, env, PlacesOf(g, ctx), c, g.regs, LowerStmt(S.Switch(e, Kept(cs)), g), d)
    ensures Select(x, cs, s, g.checks, fuel).OutOfFuel? ==> n >= fuel
  {
    hide MetFirst, QuietEntered, LaterValued, Kept, Ready, TargetsOk, S.Fits, At, MemOk, LowerStmt, Ext, Reached, HasTargets, Run, S.Select, Select, S.LegalCases;
    var st := S.Switch(e, Kept(cs));
    if LaterValued(cs, env, g.checks) {
      var ty :| S.HasType(e, env, ty) && S.LegalCases(Kept(cs), env, ctx.depth + 1, ty, S.Rep(e));
      FittingQuiet(x, cs, env, ctx.depth + 1, ty, S.Rep(e), s, g.checks, fuel);
    }
    SameFlow(x, cs, s, g.checks, fuel);
    n, d := StmtRuns(code, st, env, ctx, s, g, c, fuel);
    assert S.Exec(st, s, g.checks, fuel) == S.AfterSwitch(S.Select(x, Kept(cs), s, g.checks, fuel));
    assert S.EnvAfter(st, env) == env;
  }

  // ---- a switch without an expression ----

  /** It enters the first clause one of whose conditions holds. */
  function Tagless(cs: Clauses, s: S.Store, checks: bool, fuel: nat): S.Flow { S.AfterSwitch(Select(S.B(true), cs, s, checks, fuel)) }

  /** Nothing is emitted for it. */
  function LowerTagless(cs: Clauses, g: Gen): Gen { g }

  /** There is no default, and all conditions have values other than true. */
  predicate NoneTrue(cs: Clauses, s: S.Store, checks: bool) {
    match cs
    case NoClause => true
    case Otherwise(_) => false
    case Clause(first, more, _, rest) => Tried(S.B(true), [first] + more, s, checks).Miss? && NoneTrue(rest, s, checks)
  }

  /** Whatever the bodies do, nothing happens. */
  ghost predicate Idle(cs: Clauses, s: S.Store, checks: bool) {
    forall bodies: seq<S.Stmts>, fuel: nat | |bodies| == Count(cs) :: Tagless(Rebody(cs, bodies), s, checks, fuel) == S.Normal(s)
  }

  /** Whatever the bodies do, a machine at the end of the code so far is where the switch says. */
  ghost predicate DropRight(cs: Clauses, env: S.Env, s: S.Store, p: Places, g: Gen, c: Config) {
    forall bodies: seq<S.Stmts>, fuel: nat | |bodies| == Count(cs) ::
      var ds := Rebody(cs, bodies);
      Reached(Tagless(ds, s, g.checks, fuel), env, env, p, c, g.regs, LowerTagless(ds, g), c)
  }

  /** Dropping the switch is right, whatever its bodies do, exactly when no condition is true and there is no default. */
  lemma DropExactly(cs: Clauses, env: S.Env, s: S.Store, p: Places, g: Gen, c: Config)
    requires Ready(g) && At(c, g) && MemOk(s, c.mem) && S.Fits(s, env)
    ensures DropRight(cs, env, s, p, g, c) <==> NoneTrue(cs, s, g.checks)
    ensures Idle(cs, s, g.checks) <==> NoneTrue(cs, s, g.checks)
  {
    hide MemOk, S.Fits, Select, NoneTrue, Rebody, S.ExecAll;
    var all := Returning(Count(cs));
    if NoneTrue(cs, s, g.checks) {
      forall bodies: seq<S.Stmts>, fuel: nat | |bodies| == Count(cs)
        ensures Tagless(Rebody(cs, bodies), s, g.checks, fuel) == S.Normal(s)
      {
        NoneSelected(cs, bodies, s, g.checks, fuel);
      }
      assert StmtCorrect.Kept(s, env, c, g.regs, c);
    } else {
      SomeSelected(cs, s, g.checks);
      assert !Reached(Tagless(Rebody(cs, all), s, g.checks, 0), env, env, p, c, g.regs, LowerTagless(Rebody(cs, all), g), c);
    }
  }

  lemma {:induction false} NoneSelected(cs: Clauses, bodies: seq<S.Stmts>, s: S.Store, checks: bool, fuel: nat)
    requires |bodies| == Count(cs) && NoneTrue(cs, s, checks)
    ensures Select(S.B(true), Rebody(cs, bodies), s, checks, fuel) == S.Normal(s)
    decreases cs
  {
    hide Tried, S.ExecAll;
    if cs.Clause? { NoneSelected(cs.rest, bodies[1..], s, checks, fuel); }
  }

  /** Every body returns. */
  function Returning(count: nat): seq<S.Stmts> { seq(count, _ => RETURN) }

  lemma {:induction false} SomeSelected(cs: Clauses, s: S.Store, checks: bool)
    requires !NoneTrue(cs, s, checks)
    ensures var f := Select(S.B(true), Rebody(cs, Returning(Count(cs))), s, checks, 0); f == S.ReturnedVoid(s) || f == S.Trap || f == S.Undef
    decreases cs
  {
    hide Tried, S.ExecAll;
    ReturnReturns(s, checks, 0);
    if cs.Clause? {
      assert Returning(Count(cs))[1..] == Returning(Count(cs.rest));
      if Tried(S.B(true), [cs.first] + cs.more, s, checks).Miss? { SomeSelected(cs.rest, s, checks); }
    }
  }

  // ---- two programs ----

  /** return n */
  function Return(n: nat): S.Stmts { S.Cons(S.Return(S.IntLit(n), S.IntT), S.Nil) }

  /** case a, b: return n */
  function Pair(a: nat, b: nat, n: nat): Clauses { Clause(S.IntLit(a), [S.IntLit(b)], Return(n), NoClause) }

  /** switch x { case a, b: return n }  return m */
  function PairSwitch(x: nat, a: nat, b: nat, n: nat, m: nat): S.Stmts { S.Cons(S.Switch(S.IntLit(x), Kept(Pair(a, b, n))), Return(m)) }

  lemma Returns(n: nat, s: S.Store, checks: bool)
    ensures S.ExecAll(Return(n), s, checks, 0) == S.Returned(S.I(n), s)
  {
    assert S.Exec(Return(n).head, s, checks, 0) == S.Returned(S.I(n), s);
  }

  lemma ReturnLegal(n: nat, env: S.Env, ctx: S.Ctx)
    requires n < HALF
    ensures S.LegalAll(Return(n), env, ctx)
  {
    assert S.Legal(Return(n).head, env, ctx);
  }

  lemma PairEntered(a: nat, b: nat, n: nat, checks: bool)
    ensures Select(S.I(b), Pair(a, b, n), map[], checks, 0) == S.Returned(S.I(n), map[])
  {
    hide S.ExecAll;
    Returns(n, map[], checks);
    TriedFirst(S.I(b), S.IntLit(a), [S.IntLit(b)], map[], checks);
    assert Tried(S.I(b), [S.IntLit(b)], map[], checks) == Hit;
  }

  lemma PairMissed(x: nat, a: nat, b: nat, n: nat, m: nat, checks: bool)
    requires x != a
    ensures S.ExecAll(PairSwitch(x, a, b, n, m), map[], checks, 0) == S.Returned(S.I(m), map[])
  {
    hide S.RunFrom, Effects;
    Returns(m, map[], checks);
    assert S.Select(S.I(x), Kept(Pair(a, b, n)), map[], checks, 0) == S.Normal(map[]);
    assert S.Exec(PairSwitch(x, a, b, n, m).head, map[], checks, 0) == S.Normal(map[]);
  }

  lemma PairLegal(x: nat, a: nat, b: nat, n: nat, m: nat)
    requires x < HALF && a < HALF && b < HALF && n < HALF && m < HALF
    ensures S.LegalAll(PairSwitch(x, a, b, n, m), map[], ROOT)
  {
    hide S.LegalAll;
    var env: S.Env := map[];
    ReturnLegal(m, env, ROOT);
    PairCaseLegal(a, b, n);
    assert S.NumCases(Kept(Pair(a, b, n))) == 1;
    assert S.Legal(PairSwitch(x, a, b, n, m).head, env, ROOT) by { assert S.HasType(S.IntLit(x), env, S.IntT) && S.Rep(S.IntLit(x)) == 64; }
    SwitchThen(PairSwitch(x, a, b, n, m).head, Return(m));
  }

  lemma SwitchThen(st: S.Stmt, rest: S.Stmts)
    requires st.Switch? && S.Legal(st, map[], ROOT) && S.LegalAll(rest, map[], ROOT)
    ensures S.LegalAll(S.Cons(st, rest), map[], ROOT)
  {
    hide S.Legal;
  }

  lemma PairCaseLegal(a: nat, b: nat, n: nat)
    requires a < HALF && b < HALF && n < HALF
    ensures S.LegalCases(Kept(Pair(a, b, n)), map[], 1, S.IntT, 64)
  {
    var env: S.Env, ctx := map[], S.Ctx(true, false, true, 1);
    ReturnLegal(n, env, ctx);
    var body := S.Cons(S.ExprStmt(S.IntLit(b)), Return(n));
    assert Effects([S.IntLit(b)], Return(n)) == body;
    assert S.LegalAll(body, env, ctx) by { assert S.Legal(body.head, env, ctx); }
    assert S.LegalCases(S.NoCase, env, 1, S.IntT, 64);
  }

  /** switch 2 { case 1, 2: return 7 }  return 9: the source returns 7 from the clause, the emitted procedure 9. */
  lemma SecondValueMissed(checks: bool) returns (n: nat, d: Config)
    ensures Select(S.I(2), Pair(1, 2, 7), map[], checks, 0) == S.Returned(S.I(7), map[])
    ensures d.Returned? && d.value == 9
    ensures forall m | m >= n :: Run(LowerProcedure(PairSwitch(2, 1, 2, 7, 9), checks, false), Running(0, 0, 0, map[], map[]), m) == d
  {
    hide LowerProcedure, Run, PairSwitch, Pair;
    PairEntered(1, 2, 7, checks);
    PairLegal(2, 1, 2, 7, 9);
    PairMissed(2, 1, 2, 7, 9, checks);
    n, d := ProcedureRuns(PairSwitch(2, 1, 2, 7, 9), map[], map[], map[], checks, false, 0);
    assert ToWord(9) == 9;
  }

  /** case x > 0: return n */
  function Positive(n: nat): Clauses { Clause(S.Rel(S.GtOp, S.Var(0, S.IntT), S.IntLit(0)), [], Return(n), NoClause) }

  /** What is emitted for switch { cs }  rest */
  function TaglessProcedure(cs: Clauses, rest: S.Stmts, checks: bool): seq<Block> {
    var g := LowerAll(rest, LowerTagless(cs, Gen([[]], 0, 0, 0, [], NoTarget, checks)));
    if Terminated(g.blocks[g.cur]) then g.blocks else Emit(g, Ret(Imm(0))).blocks
  }

  lemma TaglessIs(cs: Clauses, rest: S.Stmts, checks: bool)
    ensures TaglessProcedure(cs, rest, checks) == LowerProcedure(rest, checks, false)
  {
    hide LowerAll;
  }

  /** switch { case x > 0: return 7 }  return 9, when x is 1: the source returns 7, the emitted procedure 9. */
  lemma TaglessDropped(checks: bool) returns (n: nat, d: Config)
    ensures Tagless(Positive(7), map[0 := S.I(1)], checks, 0) == S.Returned(S.I(7), map[0 := S.I(1)])
    ensures d.Returned? && d.value == 9
    ensures forall m | m >= n ::
      Run(TaglessProcedure(Positive(7), Return(9), checks), Running(0, 0, 0, map[], map[Slot(0, 64) := [1]]), m) == d
  {
    hide LowerProcedure, TaglessProcedure, Run, Return, S.ExecAll, S.LegalAll;
    TaglessIs(Positive(7), Return(9), checks);
    var s := map[0 := S.I(1)];
    PositiveEntered(7, s, checks);
    Returns(9, s, checks);
    ReturnLegal(9, map[], ROOT);
    n, d := ProcedureRuns(Return(9), map[], s, map[Slot(0, 64) := [1]], checks, false, 0);
    assert ToWord(9) == 9;
  }

  lemma PositiveEntered(n: nat, s: S.Store, checks: bool)
    requires 0 in s && s[0].I? && s[0].n > 0
    ensures Tagless(Positive(n), s, checks, 0) == S.Returned(S.I(n), s)
  {
    hide S.ExecAll;
    Returns(n, s, checks);
    TriedFirst(S.B(true), Positive(n).first, [], s, checks);
    assert S.Eval(Positive(n).first, s, checks) == S.Val(S.B(true));
  }
}
