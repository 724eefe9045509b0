module DeferProcedures {
  // The defers of whole procedures: exactly when they are emitted in reference order, and what happens otherwise.

  import opened Defers
  import opened DeferDiscipline
  import opened DeferStack
  import opened DeferOrder
  import opened DeferMeaning
  import opened DeferExact
  import opened DeferCount

  const START := State([], 0, [])

  /** The body of a procedure is emitted in reference order, and nothing stays pending. */
  lemma ProcedureOrder(b: seq<Stmt>, fuel: nat)
    requires WellFormed(Block(b)) && Placed(Block(b)) && !HasBreak(Block(b)) && Nesting(Block(b)) <= fuel
    requires Safe(Block(b), false, false) && Space(Block(b)) <= MAX_DEFERS
    ensures var o := Gen(Block(b), START, fuel); o.ended && o.st == START && o.code == Ref(Block(b), [], [])
  {
    hide Gen, Safe, Space, Placed, Ref, Nesting, WellFormed, HasBreak, HasReturn;
    GenSteps(Block(b), START, 0, fuel);
    MakeReady(Block(b), START, 0, fuel, Space(Block(b)));
    GenOrder(Block(b), START, 0, fuel);
    StaysPut(Block(b), START, 0, fuel);
  }

  /** For procedures without dead statements whose deferred code always does something: the emitted code is the
      reference code exactly when the body is safe. */
  lemma ProcedureOrderExact(b: seq<Stmt>, fuel: nat)
    requires WellFormed(Block(b)) && Placed(Block(b)) && !HasBreak(Block(b)) && Nesting(Block(b)) <= fuel
    requires NoDead(Block(b)) && Telling(Block(b)) && Space(Block(b)) <= MAX_DEFERS
    ensures Gen(Block(b), START, fuel).code == Ref(Block(b), [], []) <==> Safe(Block(b), false, false)
  {
    hide Gen, Safe, Space, Placed, Ref, Nesting, WellFormed, HasBreak, HasReturn, NoDead, Telling, Runs;
    var s := Block(b);
    if Safe(s, false, false) {
      ProcedureOrder(b, fuel);
    }
    if Gen(s, START, fuel).code == Ref(s, [], []) {
      MakeSet(s, START, 0, fuel, Space(s));
      RunsEmpty();
      assert Sum([0], 1) == 0;
      assert Sum([0], 0) == 0;
      assert Accounts(START, 0, [0], [], []);
      GenCount(s, START, 0, fuel, [0], [], []);
      NoLack(Gen(s, START, fuel).st.stack[0..], [0], Beyond(START, Exits(s)));
      SafeLess(s, ReturnPending([0]), BreakPending(START, [0]), false, false);
    }
  }

  /** A return under a condition takes the pending defer with it: the path that does not return never runs it. */
  lemma EarlyReturnLosesDefer(fuel: nat)
    requires fuel > 0
    ensures var p := Block([Defer(Plain(1)), If(Return, Skip), Plain(2)]);
      && !Safe(p, false, false) && WellFormed(p) && Placed(p)
      && Gen(p, START, fuel).code == [Branch([Do(1), Exit(Returns)], []), Do(2)]
      && Ref(p, [], []) == [Branch([Do(1), Exit(Returns)], []), Do(2), Do(1)]
  {
    hide Gen, Ref, Safe;
    EarlyReturnCode(fuel);
    EarlyReturnRef();
    EarlyReturnUnsafe();
  }

  lemma EarlyReturnCode(fuel: nat)
    requires fuel > 0
    ensures Gen(Block([Defer(Plain(1)), If(Return, Skip), Plain(2)]), START, fuel).code == [Branch([Do(1), Exit(Returns)], []), Do(2)]
  {
    var t0, t1, t2 := [Defer(Plain(1)), If(Return, Skip), Plain(2)], [If(Return, Skip), Plain(2)], [Plain(2)];
    var s0, s1 := State([], 1, []), State([Entry(Plain(1), 1)], 1, []);
    assert t0[1..] == t1 && t1[1..] == t2 && t2[1..] == [];
    ReturnCode(fuel);
    assert GenAll([], s0, fuel) == Out([], s0, true) && Gen(Plain(2), s0, fuel) == Out([Do(2)], s0, true);
    assert Gen(Skip, s0, fuel) == Out([], s0, true) && Emit(s0, At(1), fuel).code == [];
    assert s0.stack + [Entry(Plain(1), 1)] == s1.stack;
    assert Gen(Block(t0), START, fuel).code == GenAll(t0, s0, fuel).code + Emit(GenAll(t0, s0, fuel).st, At(1), fuel).code;
    hide *;
    IfCode(Return, Skip, s1, fuel);
    GenCons(t2, s0, fuel);
    GenCons(t1, s1, fuel);
    GenDefer(t0, s0, fuel);
  }

  lemma ReturnCode(fuel: nat)
    requires fuel > 0
    ensures var o := Gen(Return, State([Entry(Plain(1), 1)], 1, []), fuel);
      o.code == [Do(1), Exit(Returns)] && o.st == State([], 1, [])
  {
    var s1 := State([Entry(Plain(1), 1)], 1, []);
    assert EmitBelow(s1, 1, All, fuel).code == [Do(1)] && EmitBelow(s1, 1, All, fuel).st == s1;
    assert Keep(s1.stack, All) == [];
  }

  lemma GenCons(b: seq<Stmt>, st: State, fuel: nat)
    requires b != []
    ensures var o1 := Gen(b[0], st, fuel); var o2 := GenAll(b[1..], o1.st, fuel);
      GenAll(b, st, fuel).code == o1.code + o2.code && GenAll(b, st, fuel).st == o2.st
  {
  }

  lemma EarlyReturnRef()
    ensures Ref(Block([Defer(Plain(1)), If(Return, Skip), Plain(2)]), [], []) == [Branch([Do(1), Exit(Returns)], []), Do(2), Do(1)]
  {
    var t0, t1, t2 := [Defer(Plain(1)), If(Return, Skip), Plain(2)], [If(Return, Skip), Plain(2)], [Plain(2)];
    assert t0[1..] == t1 && t1[1..] == t2 && t2[1..] == [];
    assert [Do(1)] + [] == [Do(1)];
    var r := If(Return, Skip);
    assert Ref(Return, [Do(1)], [Do(1)]) == [Do(1), Exit(Returns)] && Ref(Skip, [Do(1)], [Do(1)]) == [];
    assert Ref(r, [Do(1)], [Do(1)]) == [Branch(Ref(Return, [Do(1)], [Do(1)]), Ref(Skip, [Do(1)], [Do(1)]))];
    assert Ref(r, [Do(1)], [Do(1)]) == [Branch([Do(1), Exit(Returns)], [])];
    assert RefAll(t2, [Do(1)], [Do(1)]) == [Do(2)];
    assert RefAll(t1, [Do(1)], [Do(1)]) == [Branch([Do(1), Exit(Returns)], []), Do(2)];
    assert !Exits(r) && !Exits(Plain(2));
    assert !ExitsAll(t1);
    RefAllDefer(t0, [], []);
  }

  lemma EarlyReturnUnsafe()
    ensures !Safe(Block([Defer(Plain(1)), If(Return, Skip), Plain(2)]), false, false)
  {
    var b := [Defer(Plain(1)), If(Return, Skip), Plain(2)];
    assert b[1..] == [If(Return, Skip), Plain(2)];
    assert !Spares(Return, true, true);
    assert !Safe(b[1], true, true);
    assert !SafeAll(b[1..], true, true);
  }

  /** Deferred code that returns asks for its own emission again: no amount of recursion is enough. */
  lemma {:induction false} DeferredReturnNeverEnds(fuel: nat)
    ensures !Gen(Return, State([Entry(Return, 1)], 1, []), fuel).ended
  {
    var st := State([Entry(Return, 1)], 1, []);
    if fuel > 0 {
      DeferredReturnNeverEnds(fuel - 1);
      assert Match(All, st.stack[0]);
      assert !EmitBelow(st, 1, All, fuel).ended;
    }
  }

  /** A defer that is a branch by itself runs at the end of the enclosing block, whether the branch was taken or not. */
  lemma LooseDeferRunsAlways(fuel: nat)
    requires fuel > 0
    ensures var p := Block([If(Defer(Plain(1)), Skip)]);
      Gen(p, START, fuel).code == [Branch([], []), Do(1)] && Ref(p, [], []) == [Branch([Do(1)], [])]
  {
    var b := [If(Defer(Plain(1)), Skip)];
    var s0 := State([], 1, []);
    var s1 := State([Entry(Plain(1), 1)], 1, []);
    assert b[1..] == [];
    assert s0.stack + [Entry(Plain(1), 1)] == s1.stack;
    assert Gen(b[0], s0, fuel).code == [Branch([], [])] && Gen(b[0], s0, fuel).st == s1;
    assert GenAll(b, s0, fuel).code == [Branch([], [])] && GenAll(b, s0, fuel).st == s1;
    assert EmitBelow(s1, 1, At(1), fuel).code == [Do(1)];
    assert Emit(s1, At(1), fuel).code == [Do(1)];
  }

  /** A defer is forgotten exactly when the stack is full. */
  lemma DeferForgotten(d: Stmt, st: State, fuel: nat)
    ensures Gen(Defer(d), st, fuel).st == st <==> |st.stack| >= MAX_DEFERS
  {
    if |st.stack| < MAX_DEFERS { assert |st.stack + [Entry(d, st.depth)]| == |st.stack| + 1; }
  }
}
