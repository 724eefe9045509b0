module Ranges {
  // Ranges that include their upper bound. The bound plus one is where the emitted loop stops, and that sum wraps around
  // when the bound is the largest integer.

  import opened Words
  import opened Cfg
  import opened Lower
  import opened Statements
  import opened Simulation
  import opened Procedures
  import S = Source

  /** `for x in low..=hi { body }` by comparison with hi itself, once x holds its first value. */
  function CountTo(x: nat, hi: int, body: S.Stmts, s: S.Store, checks: bool, fuel: nat): S.Flow
    decreases fuel
  {
    if fuel == 0 then S.OutOfFuel else
    if x !in s || !s[x].I? then S.Undef else
    if s[x].n > hi then S.Normal(s) else
    var f := S.ExecAll(body, s, checks, fuel - 1);
    if f.Normal? || f.Continued? then
      if x !in f.s || !f.s[x].I? then S.Undef
      else CountTo(x, hi, body, f.s[x := S.I(Wrap(f.s[x].n + 1))], checks, fuel - 1)
    else if f.Broke? then S.Normal(f.s)
    else f
  }

  lemma RangeEndIs(hi: int)
    requires IsInt64(hi)
    ensures S.RangeEnd(hi, true) == hi + 1 <==> hi < HALF - 1
    ensures hi == HALF - 1 ==> S.RangeEnd(hi, true) == -HALF
  {
    if hi < HALF - 1 { ToIntToWord(hi + 1); }
  }

  lemma {:induction false} CountAgrees(x: nat, hi: int, body: S.Stmts, s: S.Store, checks: bool, fuel: nat)
    requires IsInt64(hi) && hi < HALF - 1
    ensures S.Count(x, S.RangeEnd(hi, true), body, s, checks, fuel) == CountTo(x, hi, body, s, checks, fuel)
    decreases fuel
  {
    RangeEndIs(hi);
    hide S.ExecAll, S.RangeEnd, Wrap;
    if fuel > 0 && x in s && s[x].I? && s[x].n <= hi {
      var f := S.ExecAll(body, s, checks, fuel - 1);
      if (f.Normal? || f.Continued?) && x in f.s && f.s[x].I? {
        CountAgrees(x, hi, body, f.s[x := S.I(Wrap(f.s[x].n + 1))], checks, fuel - 1);
      }
    }
  }

  /** Whatever the body does, the loop counts as far as the bound says. */
  ghost predicate Inclusive(x: nat, hi: int) {
    forall body: S.Stmts, s: S.Store, checks: bool, fuel: nat ::
      S.Count(x, S.RangeEnd(hi, true), body, s, checks, fuel) == CountTo(x, hi, body, s, checks, fuel)
  }

  /** A range includes its upper bound exactly when that is not the largest integer. */
  lemma IncludesBound(x: nat, hi: int)
    requires IsInt64(hi)
    ensures Inclusive(x, hi) <==> hi < HALF - 1
  {
    if hi < HALF - 1 {
      forall body: S.Stmts, s: S.Store, checks: bool, fuel: nat
        ensures S.Count(x, S.RangeEnd(hi, true), body, s, checks, fuel) == CountTo(x, hi, body, s, checks, fuel)
      {
        CountAgrees(x, hi, body, s, checks, fuel);
      }
    } else {
      RangeEndIs(hi);
      var body, s := S.Cons(S.ReturnVoid, S.Nil), map[x := S.I(0)];
      assert S.Exec(S.ReturnVoid, s, true, 0) == S.ReturnedVoid(s);
      assert S.ExecAll(body, s, true, 0) == S.ReturnedVoid(s);
      assert S.Count(x, S.RangeEnd(hi, true), body, s, true, 1) == S.Normal(s);
      assert CountTo(x, hi, body, s, true, 1) == S.ReturnedVoid(s);
    }
  }

  /** Up to the largest integer the loop runs no iteration at all, wherever it starts. */
  lemma NoneToLast(x: nat, body: S.Stmts, s: S.Store, checks: bool, fuel: nat)
    requires fuel > 0 && x in s && s[x].I? && IsInt64(s[x].n)
    ensures S.Count(x, S.RangeEnd(HALF - 1, true), body, s, checks, fuel) == S.Normal(s)
  {
    RangeEndIs(HALF - 1);
  }

  /** for i in max..=max { return 1 }; return 2 */
  const LAST := S.IntLit(HALF - 1)
  const ONCE := S.Cons(S.Return(S.IntLit(1), S.IntT), S.Nil)
  const LAST_ONLY := S.Cons(S.ForRange(0, LAST, LAST, true, ONCE), S.Cons(S.Return(S.IntLit(2), S.IntT), S.Nil))

  /** The emitted procedure returns 2, where counting to the bound returns 1. */
  lemma LastIsMissed() returns (n: nat, d: Config)
    ensures d.Returned? && d.value == 2
    ensures forall m | m >= n :: Run(LowerProcedure(LAST_ONLY, true, false), Running(0, 0, 0, map[], map[]), m) == d
    ensures CountTo(0, HALF - 1, ONCE, map[0 := S.I(HALF - 1)], true, 1) == S.Returned(S.I(1), map[0 := S.I(HALF - 1)])
  {
    hide LowerProcedure, Run;
    LastOnlyReturns();
    n, d := ProcedureRuns(LAST_ONLY, map[], map[], map[], true, false, 1);
    assert ToWord(2) == 2;
    assert S.ExecAll(ONCE, map[0 := S.I(HALF - 1)], true, 0) == S.Returned(S.I(1), map[0 := S.I(HALF - 1)]) by {
      assert S.Exec(ONCE.head, map[0 := S.I(HALF - 1)], true, 0) == S.Returned(S.I(1), map[0 := S.I(HALF - 1)]);
    }
  }

  lemma LastOnlyReturns()
    ensures S.LegalAll(LAST_ONLY, map[], ROOT)
    ensures S.ExecAll(LAST_ONLY, map[], true, 1) == S.Returned(S.I(2), map[0 := S.I(HALF - 1)])
  {
    var s := map[0 := S.I(HALF - 1)];
    NoneToLast(0, ONCE, s, true, 1);
    assert S.Exec(LAST_ONLY.head, map[], true, 1) == S.Normal(s);
    assert S.ExecAll(LAST_ONLY.tail, s, true, 1) == S.Returned(S.I(2), s) by {
      assert S.Exec(LAST_ONLY.tail.head, s, true, 1) == S.Returned(S.I(2), s);
    }
    assert S.LegalAll(ONCE, map[0 := S.Scalar(S.IntT)], S.Ctx(true, true, false, 1)) by {
      assert S.Legal(ONCE.head, map[0 := S.Scalar(S.IntT)], S.Ctx(true, true, false, 1));
    }
    assert S.Legal(LAST_ONLY.head, map[], ROOT);
    assert S.LegalAll(LAST_ONLY.tail, map[], ROOT);
  }
}
