/** Exactly what is left on the defer stack after a statement, and the fuel that generation needs. */
module DeferStack {
  import opened Defers
  import opened DeferDiscipline

  /** Defers stand in the statement list of a block or clause, not alone as a branch, a loop body or deferred code. */
  predicate Placed(s: Stmt) {
    match s
    case Block(b) => forall i | 0 <= i < |b| :: Placed(b[i])
    case If(t, e) => !t.Defer? && !e.Defer? && Placed(t) && Placed(e)
    case Loop(b) => !b.Defer? && Placed(b)
    case Switch(cs) => forall i | 0 <= i < |cs| :: cs[i].Block? && Placed(cs[i])
    case Defer(d) => !d.Defer? && Placed(d)
    case _ => true
  }

  /** How many entries survive code with the given exits. */
  function Left(leaves: bool, jumps: bool, st: State): (n: nat)
    ensures n <= |st.stack|
  {
    if leaves then 0
    else if jumps && st.loops != [] then Cut(st.stack, From(Top(st.loops) + 1))
    else |st.stack|
  }

  /** A statement keeps every pending defer exactly when its exits have none to emit. */
  lemma KeepsAll(s: Stmt, st: State, base: nat, fuel: nat)
    requires WellFormed(s) && Nesting(s) <= fuel && Allowed(HasBreak(s), HasReturn(s), st, base, fuel)
    requires Placed(s) && !s.Defer?
    ensures Gen(s, st, fuel).st.stack == st.stack <==>
      (HasReturn(s) ==> st.stack == []) &&
      (HasBreak(s) && st.loops != [] ==> forall e | e in st.stack :: e.depth <= Top(st.loops))
  {
    hide Gen, WellFormed, Placed, Allowed;
    StackAfter(s, st, base, fuel);
    var n := Left(HasReturn(s), HasBreak(s), st);
    assert Gen(s, st, fuel).st.stack == st.stack <==> n == |st.stack|;
    if st.loops != [] {
      var w := From(Top(st.loops) + 1);
      KeepIsPrefixOf(HasBreak(s), HasReturn(s), st, base, fuel, w);
      assert Cut(st.stack, w) == |st.stack| <==> forall e | e in st.stack :: e.depth <= Top(st.loops) by {
        if forall e | e in st.stack :: e.depth <= Top(st.loops) {
          CutWhole(st.stack, w);
        }
      }
    }
  }

  lemma KeepIsPrefixOf(jumps: bool, leaves: bool, st: State, base: nat, fuel: nat, w: Which)
    requires Allowed(jumps, leaves, st, base, fuel) && Proper(w, st.depth)
    ensures forall i | 0 <= i < |st.stack| :: Match(w, st.stack[i]) <==> i >= Cut(st.stack, w)
  {
    KeepIsPrefix(st, w);
  }

  lemma {:induction false} StackAfter(s: Stmt, st: State, base: nat, fuel: nat)
    requires WellFormed(s) && Nesting(s) <= fuel && Allowed(HasBreak(s), HasReturn(s), st, base, fuel)
    requires Placed(s) && !s.Defer?
    ensures Gen(s, st, fuel).st.stack == st.stack[..Left(HasReturn(s), HasBreak(s), st)]
    decreases s, 0
  {
    hide Inv, Fuelled, Allowed, Steps, WellFormed, HasBreak, HasReturn, Nesting, ListReturns, ListBreaks, ListFormed, Emit, GenAll, GenClauses, GenJump, GenBlock, Cut;
    Parts(s);
    AllowedInv(HasBreak(s), HasReturn(s), st, base, fuel);
    Whole(st);
    match s
    case Plain(_) => NoExits(s);
    case Skip => NoExits(s);
    case Block(b) =>
      ListSteps(b, st, base, fuel);
      ListAfter(b, EnterBlock(st), base, fuel);
      BlockAfter(b, st, base, fuel);
    case If(t, e) =>
      var o1 := Gen(t, st, fuel);
      Weaken(HasBreak(s), HasReturn(s), HasBreak(t), HasReturn(t), st, base, fuel);
      GenSteps(t, st, base, fuel);
      StackAfter(t, st, base, fuel);
      Carry(HasBreak(s), HasReturn(s), st, o1.st, base, fuel);
      Weaken(HasBreak(s), HasReturn(s), HasBreak(e), HasReturn(e), o1.st, base, fuel);
      StackAfter(e, o1.st, base, fuel);
      StepsInv(st, o1.st, base, fuel);
      LeftTwice(HasReturn(t), HasBreak(t), HasReturn(e), HasBreak(e), st, o1.st);
    case Loop(b) =>
      Entered(HasBreak(s), HasReturn(s), HasBreak(b), st, base, fuel);
      StackAfter(b, EnterLoop(st), base, fuel);
      LeftInLoop(HasReturn(b), HasBreak(b), st);
    case Switch(cs) =>
      Entered(HasBreak(s), HasReturn(s), ListBreaks(cs), st, base, fuel);
      ClausesAfter(cs, EnterLoop(st), base, fuel);
      LeftInLoop(ListReturns(cs), ListBreaks(cs), st);
    case Break => JumpAfter(Breaks, st, base, fuel);
    case Continue => JumpAfter(Continues, st, base, fuel);
    case Return =>
      BaseZero(HasBreak(s), st, base, fuel);
      EmitSteps(st, All, base, fuel);
      CutAll(st.stack);
  }

  lemma NoExits(s: Stmt)
    requires s.Plain? || s.Skip?
    ensures !HasReturn(s) && !HasBreak(s)
  {
  }

  lemma CutWhole(stack: seq<Entry>, w: Which)
    requires forall i | 0 <= i < |stack| :: !Match(w, stack[i])
    ensures Cut(stack, w) == |stack|
  {
  }

  lemma NoneInEmpty()
    ensures !ListReturns([]) && !ListBreaks([])
  {
  }

  lemma CutAll(stack: seq<Entry>)
    ensures Cut(stack, All) == 0
  {
  }

  lemma Whole(st: State)
    ensures st.stack[..Left(false, false, st)] == st.stack
  {
  }

  lemma LeftTwice(l1: bool, j1: bool, l2: bool, j2: bool, st: State, st1: State)
    requires st1.loops == st.loops && st1.stack == st.stack[..Left(l1, j1, st)]
    ensures st1.stack[..Left(l2, j2, st1)] == st.stack[..Left(l1 || l2, j1 || j2, st)]
  {
    var n := Left(l1, j1, st);
    if st.loops != [] { CutOfPrefix(st.stack, n, From(Top(st.loops) + 1)); }
  }

  lemma {:induction false} CutOfPrefix(stack: seq<Entry>, n: nat, w: Which)
    requires n <= |stack|
    ensures Cut(stack[..n], w) == if Cut(stack, w) < n then Cut(stack, w) else n
  {
    var c := Cut(stack[..n], w);
    if c < n { assert Match(w, stack[c]); }
    assert forall j | 0 <= j < c :: !Match(w, stack[j]) by {
      forall j | 0 <= j < c ensures !Match(w, stack[j]) { assert stack[..n][j] == stack[j]; }
    }
  }

  lemma LeftInLoop(leaves: bool, jumps: bool, st: State)
    requires Inv(st)
    ensures EnterLoop(st).stack[..Left(leaves, jumps, EnterLoop(st))] == st.stack[..Left(leaves, false, st)]
  {
    CutWhole(st.stack, From(st.depth + 1));
  }

  lemma JumpAfter(jump: Jump, st: State, base: nat, fuel: nat)
    requires Allowed(true, false, st, base, fuel)
    ensures GenJump(jump, st, fuel).st.stack == st.stack[..Left(false, true, st)]
  {
    hide Emit;
    if st.loops != [] { EmitSteps(st, From(Top(st.loops) + 1), base, fuel); }
  }

  lemma ListSteps(b: seq<Stmt>, st: State, base: nat, fuel: nat)
    requires ListFormed(b) && NestingAll(b) <= fuel && Allowed(ListBreaks(b), ListReturns(b), st, base, fuel)
    ensures Allowed(ListBreaks(b), ListReturns(b), EnterBlock(st), base, fuel) && Inv(st)
    ensures Steps(EnterBlock(st), GenAll(b, EnterBlock(st), fuel).st, base, fuel)
  {
    Entered(ListBreaks(b), ListReturns(b), ListBreaks(b), st, base, fuel);
    AllSteps(b, EnterBlock(st), base, fuel);
  }

  /** Whatever a list does, what it leaves below its own depth is what its exits leave. */
  lemma {:induction false} ListAfter(b: seq<Stmt>, st: State, base: nat, fuel: nat)
    requires ListFormed(b) && NestingAll(b) <= fuel && Allowed(ListBreaks(b), ListReturns(b), st, base, fuel)
    requires forall i | 0 <= i < |b| :: Placed(b[i])
    ensures var after := GenAll(b, st, fuel).st.stack;
      Low(after, st.depth, |after|) == Low(st.stack, st.depth, Left(ListReturns(b), ListBreaks(b), st))
    decreases b, 0
  {
    hide Inv, Fuelled, Allowed, Steps, ListReturns, ListBreaks, ListFormed, Gen, Nesting, HasBreak, HasReturn, WellFormed, Placed, Low, Left;
    AllowedInv(ListBreaks(b), ListReturns(b), st, base, fuel);
    NoneInEmpty();
    if b == [] {
      LowAll(st);
    } else {
      ListHead(b);
      var o1 := Gen(b[0], st, fuel);
      Weaken(ListBreaks(b), ListReturns(b), HasBreak(b[0]), HasReturn(b[0]), st, base, fuel);
      GenSteps(b[0], st, base, fuel);
      StepsInv(st, o1.st, base, fuel);
      Carry(ListBreaks(b), ListReturns(b), st, o1.st, base, fuel);
      Weaken(ListBreaks(b), ListReturns(b), ListBreaks(b[1..]), ListReturns(b[1..]), o1.st, base, fuel);
      ListAfter(b[1..], o1.st, base, fuel);
      if b[0].Defer? {
        DeferAfter(b[0], st, fuel, ListReturns(b[1..]), ListBreaks(b[1..]));
      } else {
        StackAfter(b[0], st, base, fuel);
        BelowTwice(HasReturn(b[0]), HasBreak(b[0]), ListReturns(b[1..]), ListBreaks(b[1..]), st, o1.st);
      }
    }
  }

  /** The first n entries, as far as they are below a depth. */
  function Low(stack: seq<Entry>, depth: nat, n: nat): (r: seq<Entry>)
    requires n <= |stack|
  {
    stack[..Min(Cut(stack, From(depth)), n)]
  }

  function Min(a: nat, b: nat): nat { if a < b then a else b }

  lemma LowAll(st: State)
    ensures Low(st.stack, st.depth, Left(false, false, st)) == Low(st.stack, st.depth, |st.stack|)
  {
  }

  lemma LowOfPrefix(stack: seq<Entry>, n: nat, depth: nat, m: nat)
    requires m <= n <= |stack|
    ensures Low(stack[..n], depth, m) == Low(stack, depth, m)
  {
    CutOfPrefix(stack, n, From(depth));
    assert stack[..n][..Min(Cut(stack, From(depth)), m)] == stack[..Min(Cut(stack, From(depth)), m)];
  }

  lemma BelowTwice(l1: bool, j1: bool, l2: bool, j2: bool, st: State, st1: State)
    requires st1.loops == st.loops && st1.stack == st.stack[..Left(l1, j1, st)]
    ensures Low(st1.stack, st.depth, Left(l2, j2, st1)) == Low(st.stack, st.depth, Left(l1 || l2, j1 || j2, st))
  {
    hide Low, Cut, Left;
    LeftLength(l1, j1, l2, j2, st, st1);
    LowOfPrefix(st.stack, Left(l1, j1, st), st.depth, Left(l2, j2, st1));
  }

  lemma LeftLength(l1: bool, j1: bool, l2: bool, j2: bool, st: State, st1: State)
    requires st1.loops == st.loops && st1.stack == st.stack[..Left(l1, j1, st)]
    ensures Left(l2, j2, st1) == Left(l1 || l2, j1 || j2, st) <= Left(l1, j1, st)
  {
    hide Cut;
    if st.loops != [] { CutOfPrefix(st.stack, Left(l1, j1, st), From(Top(st.loops) + 1)); }
  }

  lemma DeferAfter(s: Stmt, st: State, fuel: nat, leaves: bool, jumps: bool)
    requires s.Defer? && Inv(st)
    ensures var st1 := Gen(s, st, fuel).st;
      Low(st1.stack, st.depth, Left(leaves, jumps, st1)) == Low(st.stack, st.depth, Left(leaves || HasReturn(s), jumps || HasBreak(s), st))
  {
    hide Cut, Low, Left;
    var st1 := Gen(s, st, fuel).st;
    if st1 != st {
      assert st1.stack[..|st.stack|] == st.stack;
      PushedLow(st.stack, st1.stack[|st.stack|], st.depth, leaves, jumps, st, st1);
    }
  }

  lemma PushedLow(stack: seq<Entry>, e: Entry, depth: nat, leaves: bool, jumps: bool, st: State, st1: State)
    requires st.stack == stack && st1.stack == stack + [e] && st1.loops == st.loops && e.depth == depth == st.depth
    requires forall i | 0 <= i < |st.loops| :: st.loops[i] <= depth
    ensures Low(st1.stack, depth, Left(leaves, jumps, st1)) == Low(stack, depth, Left(leaves, jumps, st))
  {
    hide Cut;
    assert st1.stack[..|stack|] == stack;
    CutOfPrefix(st1.stack, |stack|, From(depth));
    assert Cut(st1.stack, From(depth)) <= |stack| by { assert Match(From(depth), st1.stack[|stack|]); CutHits(st1.stack, From(depth), |stack|); }
    if st.loops != [] { CutOfPrefix(st1.stack, |stack|, From(Top(st.loops) + 1)); }
  }

  lemma CutHits(stack: seq<Entry>, w: Which, i: nat)
    requires i < |stack| && Match(w, stack[i])
    ensures Cut(stack, w) <= i
  {
  }

  lemma BlockAfter(b: seq<Stmt>, st: State, base: nat, fuel: nat)
    requires Inv(st) && Steps(EnterBlock(st), GenAll(b, EnterBlock(st), fuel).st, base, fuel)
    requires var st1 := GenAll(b, EnterBlock(st), fuel).st;
      Low(st1.stack, st.depth + 1, |st1.stack|) == Low(st.stack, st.depth + 1, Left(ListReturns(b), ListBreaks(b), EnterBlock(st)))
    ensures GenBlock(b, st, fuel).st.stack == st.stack[..Left(ListReturns(b), ListBreaks(b), st)]
  {
    hide GenAll, Emit, Gen, Keep, ListReturns, ListBreaks;
    var st1 := GenAll(b, EnterBlock(st), fuel).st;
    LeftBlock(st, st1, base, fuel);
    EmitSteps(st1, At(st.depth + 1), base, fuel);
    SameCut(st1);
    CutWhole(st.stack, From(st.depth + 1));
  }

  lemma SameCut(st: State)
    requires Inv(st)
    ensures Cut(st.stack, At(st.depth)) == Cut(st.stack, From(st.depth))
  {
    KeepIsPrefix(st, At(st.depth));
    KeepIsPrefix(st, From(st.depth));
  }

  lemma {:induction false} ClausesAfter(cs: seq<Stmt>, st: State, base: nat, fuel: nat)
    requires ListFormed(cs) && NestingAll(cs) <= fuel && Allowed(ListBreaks(cs), ListReturns(cs), st, base, fuel)
    requires forall i | 0 <= i < |cs| :: cs[i].Block? && Placed(cs[i])
    ensures GenClauses(cs, st, fuel).st.stack == st.stack[..Left(ListReturns(cs), ListBreaks(cs), st)]
    decreases cs, 0
  {
    hide Inv, Fuelled, Allowed, Steps, ListReturns, ListBreaks, ListFormed, Gen, Nesting, HasBreak, HasReturn, WellFormed, Placed, Left;
    AllowedInv(ListBreaks(cs), ListReturns(cs), st, base, fuel);
    Whole(st);
    NoneInEmpty();
    if cs != [] {
      ListHead(cs);
      var o1 := Gen(cs[0], st, fuel);
      Weaken(ListBreaks(cs), ListReturns(cs), HasBreak(cs[0]), HasReturn(cs[0]), st, base, fuel);
      GenSteps(cs[0], st, base, fuel);
      StepsInv(st, o1.st, base, fuel);
      StackAfter(cs[0], st, base, fuel);
      Carry(ListBreaks(cs), ListReturns(cs), st, o1.st, base, fuel);
      Weaken(ListBreaks(cs), ListReturns(cs), ListBreaks(cs[1..]), ListReturns(cs[1..]), o1.st, base, fuel);
      ClausesAfter(cs[1..], o1.st, base, fuel);
      LeftTwice(HasReturn(cs[0]), HasBreak(cs[0]), ListReturns(cs[1..]), ListBreaks(cs[1..]), st, o1.st);
    }
  }
}
