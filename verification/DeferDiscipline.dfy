/** What every run of the generator keeps true of the defer stack. */
module DeferDiscipline {
  import opened Defers

  // ---- invariants ----

  /** Scope depths do not decrease along the stack and do not exceed the current one; deferred code stays in place. */
  ghost predicate Inv(st: State) {
    && (forall i, j | 0 <= i < j < |st.stack| :: st.stack[i].depth <= st.stack[j].depth)
    && (forall i | 0 <= i < |st.stack| :: st.stack[i].depth <= st.depth && Deferrable(st.stack[i].node))
    && (forall i | 0 <= i < |st.loops| :: st.loops[i] <= st.depth)
  }

  /** The fuel is enough for what may be emitted from base on. */
  ghost predicate Fuelled(stack: seq<Entry>, base: nat, fuel: nat) {
    base <= |stack| && forall i | base <= i < |stack| :: Nesting(stack[i].node) < fuel
  }

  /** Code may run that jumps, or leaves the procedure: then nothing below base is in its reach. */
  ghost predicate Allowed(jumps: bool, leaves: bool, st: State, base: nat, fuel: nat) {
    && Inv(st) && Fuelled(st.stack, base, fuel) && (leaves ==> base == 0)
    && (jumps && st.loops != [] ==> forall j | 0 <= j < base :: st.stack[j].depth <= Top(st.loops))
  }

  /** The stack was cut at some point and then only grew at the given depth. */
  ghost predicate Trims(stack: seq<Entry>, stack': seq<Entry>, depth: nat) {
    exists k: nat :: TrimsAt(stack, stack', depth, k)
  }

  ghost predicate TrimsAt(stack: seq<Entry>, stack': seq<Entry>, depth: nat, k: nat) {
    && k <= |stack| && k <= |stack'| && (forall j | 0 <= j < k :: stack'[j] == stack[j])
    && (forall j | k <= j < |stack'| :: stack'[j].depth == depth)
  }

  ghost predicate Prefix(stack': seq<Entry>, stack: seq<Entry>) {
    |stack'| <= |stack| && forall j | 0 <= j < |stack'| :: stack'[j] == stack[j]
  }

  /** What a step keeps: the depths, everything below base, and the shape of the rest. */
  ghost predicate Steps(st: State, st': State, base: nat, fuel: nat) {
    && Inv(st') && st'.depth == st.depth && st'.loops == st.loops
    && base <= |st.stack| && Fuelled(st'.stack, base, fuel)
    && (forall j | 0 <= j < base :: st'.stack[j] == st.stack[j])
    && Trims(st.stack, st'.stack, st.depth)
  }

  ghost predicate ListReturns(b: seq<Stmt>) { exists i | 0 <= i < |b| :: HasReturn(b[i]) }
  ghost predicate ListBreaks(b: seq<Stmt>) { exists i | 0 <= i < |b| :: HasBreak(b[i]) }
  ghost predicate ListFormed(b: seq<Stmt>) { forall i | 0 <= i < |b| :: WellFormed(b[i]) }

  lemma ListHead(b: seq<Stmt>)
    requires b != []
    ensures ListBreaks(b) <==> HasBreak(b[0]) || ListBreaks(b[1..])
    ensures ListReturns(b) <==> HasReturn(b[0]) || ListReturns(b[1..])
    ensures ListFormed(b) <==> WellFormed(b[0]) && ListFormed(b[1..])
  {
    if ListBreaks(b) {
      var i :| 0 <= i < |b| && HasBreak(b[i]);
      if i > 0 { assert HasBreak(b[1..][i - 1]); }
    }
    if ListReturns(b) {
      var i :| 0 <= i < |b| && HasReturn(b[i]);
      if i > 0 { assert HasReturn(b[1..][i - 1]); }
    }
    if ListFormed(b[1..]) && WellFormed(b[0]) {
      forall i | 0 <= i < |b| ensures WellFormed(b[i]) {
        if i > 0 { assert WellFormed(b[1..][i - 1]); }
      }
    }
  }

  // ---- the compaction removes a suffix ----

  /** How many entries at the bottom do not match. */
  function Cut(stack: seq<Entry>, w: Which): (n: nat)
    ensures n <= |stack|
    ensures forall j | 0 <= j < n :: !Match(w, stack[j])
    ensures n < |stack| ==> Match(w, stack[n])
  {
    if stack == [] || Match(w, stack[0]) then 0 else 1 + Cut(stack[1..], w)
  }

  lemma {:induction false} KeepSplit(stack: seq<Entry>, n: nat, w: Which)
    requires n <= |stack| && (forall i | 0 <= i < n :: !Match(w, stack[i])) && forall i | n <= i < |stack| :: Match(w, stack[i])
    ensures Keep(stack, w) == stack[..n]
  {
    if n == |stack| {
      if n > 0 {
        KeepSplit(stack[..n - 1], n - 1, w);
        assert stack[..n - 1][..n - 1] == stack[..n - 1];
        assert stack == stack[..n - 1] + [stack[n - 1]];
      }
      assert stack[..n] == stack;
    } else {
      KeepSplit(stack[..|stack| - 1], n, w);
      assert stack[..|stack| - 1][..n] == stack[..n];
    }
  }

  /** The end of a scope asks for its own depth; a jump and a return ask for everything above a point. */
  predicate Proper(w: Which, depth: nat) { w.At? ==> w.at == depth }

  /** Every emission removes exactly the top part of the stack. */
  lemma KeepIsPrefix(st: State, w: Which)
    requires Inv(st) && Proper(w, st.depth)
    ensures Keep(st.stack, w) == st.stack[..Cut(st.stack, w)]
    ensures forall i | 0 <= i < |st.stack| :: Match(w, st.stack[i]) <==> i >= Cut(st.stack, w)
  {
    var n := Cut(st.stack, w);
    forall i | n <= i < |st.stack| ensures Match(w, st.stack[i]) {
      assert Match(w, st.stack[n]);
      assert n < i ==> st.stack[n].depth <= st.stack[i].depth <= st.depth;
    }
    KeepSplit(st.stack, n, w);
  }

  // ---- how allowances and steps carry over ----

  lemma Still(st: State, base: nat, fuel: nat)
    requires Inv(st) && Fuelled(st.stack, base, fuel)
    ensures Steps(st, st, base, fuel)
  {
    assert TrimsAt(st.stack, st.stack, st.depth, |st.stack|);
  }

  lemma Chain(st: State, st1: State, st2: State, base: nat, fuel: nat)
    requires Steps(st, st1, base, fuel) && Steps(st1, st2, base, fuel)
    ensures Steps(st, st2, base, fuel)
  {
    hide Inv;
    var k1: nat :| TrimsAt(st.stack, st1.stack, st.depth, k1);
    var k2: nat :| TrimsAt(st1.stack, st2.stack, st.depth, k2);
    assert TrimsAt(st.stack, st2.stack, st.depth, if k1 < k2 then k1 else k2);
  }

  lemma Carry(jumps: bool, leaves: bool, st: State, st1: State, base: nat, fuel: nat)
    requires Allowed(jumps, leaves, st, base, fuel) && Steps(st, st1, base, fuel)
    ensures Allowed(jumps, leaves, st1, base, fuel)
  {
  }

  lemma Weaken(jumps: bool, leaves: bool, jumps': bool, leaves': bool, st: State, base: nat, fuel: nat)
    requires Allowed(jumps, leaves, st, base, fuel) && (jumps' ==> jumps) && (leaves' ==> leaves)
    ensures Allowed(jumps', leaves', st, base, fuel)
  {
  }

  lemma Entered(jumps: bool, leaves: bool, jumps': bool, st: State, base: nat, fuel: nat)
    requires Allowed(jumps, leaves, st, base, fuel)
    ensures Allowed(jumps', leaves, EnterLoop(st), base, fuel) && Allowed(jumps, leaves, EnterBlock(st), base, fuel)
  {
  }

  lemma LeftLoop(st: State, st1: State, base: nat, fuel: nat)
    requires Inv(st) && Steps(EnterLoop(st), st1, base, fuel)
    ensures Steps(st, st1.(loops := st.loops), base, fuel)
  {
  }

  /** The end of a block leaves a prefix of what was there before it, with everything below base. */
  lemma LeftBlock(st: State, st1: State, base: nat, fuel: nat)
    requires Inv(st) && base <= |st.stack| && Steps(EnterBlock(st), st1, base, fuel)
    ensures forall j | 0 <= j < base :: !Match(At(st.depth + 1), st1.stack[j])
    ensures var kept := Keep(st1.stack, At(st.depth + 1));
      Prefix(kept, st.stack) && Steps(st, st1.(stack := kept, depth := st.depth), base, fuel)
  {
    hide Keep, Cut;
    var w := At(st.depth + 1);
    KeepIsPrefix(st1, w);
    var k: nat :| TrimsAt(st.stack, st1.stack, st.depth + 1, k);
    var n := Cut(st1.stack, w);
    assert k < |st1.stack| ==> Match(w, st1.stack[k]);
    assert base < |st1.stack| ==> n >= base by { assert forall j | 0 <= j < base :: !Match(w, st1.stack[j]); }
    PrefixSteps(st, st1, base, fuel, n, k);
  }

  lemma PrefixSteps(st: State, st1: State, base: nat, fuel: nat, n: nat, k: nat)
    requires Inv(st) && Steps(EnterBlock(st), st1, base, fuel) && base <= n <= k && n <= |st1.stack|
    requires TrimsAt(st.stack, st1.stack, st.depth + 1, k)
    requires forall j | 0 <= j < n :: st1.stack[j].depth <= st.depth
    ensures Prefix(st1.stack[..n], st.stack) && Steps(st, st1.(stack := st1.stack[..n], depth := st.depth), base, fuel)
  {
    assert TrimsAt(st.stack, st1.stack[..n], st.depth, n);
  }

  lemma Pushed(st: State, d: Stmt, base: nat, fuel: nat)
    requires Inv(st) && Fuelled(st.stack, base, fuel) && Deferrable(d) && Nesting(d) < fuel
    ensures Steps(st, st.(stack := st.stack + [Entry(d, st.depth)]), base, fuel)
  {
    assert TrimsAt(st.stack, st.stack + [Entry(d, st.depth)], st.depth, |st.stack|);
  }

  /** What running the entries that match does to the stack: nothing below them, and more on top of them. */
  ghost predicate OnTop(st: State, st': State, fuel: nat) {
    && Inv(st') && st'.depth == st.depth && st'.loops == st.loops && |st.stack| <= |st'.stack|
    && (forall j | 0 <= j < |st.stack| :: st'.stack[j] == st.stack[j])
    && (forall j | |st.stack| <= j < |st'.stack| :: st'.stack[j].depth == st.depth && Nesting(st'.stack[j].node) < fuel)
  }

  lemma TopOf(st: State, st': State, fuel: nat)
    requires Steps(st, st', |st.stack|, fuel)
    ensures OnTop(st, st', fuel + 1)
  {
    var k: nat :| TrimsAt(st.stack, st'.stack, st.depth, k);
  }

  lemma TopChain(st: State, st1: State, st2: State, fuel: nat)
    requires OnTop(st, st1, fuel) && OnTop(st1, st2, fuel)
    ensures OnTop(st, st2, fuel)
  {
    hide Inv;
    forall j | 0 <= j < |st2.stack|
      ensures j < |st.stack| ==> st2.stack[j] == st.stack[j]
      ensures j >= |st.stack| ==> st2.stack[j].depth == st.depth && Nesting(st2.stack[j].node) < fuel
    { if j < |st1.stack| { assert st2.stack[j] == st1.stack[j]; } }
  }

  /** What was added while emitting is dropped again with what was emitted. */
  lemma Dropped(st: State, st': State, w: Which, fuel: nat)
    requires Inv(st) && OnTop(st, st', fuel) && Proper(w, st.depth)
    requires (forall j | 0 <= j < |st.stack| :: !Match(w, st.stack[j])) ==> st' == st
    ensures Keep(st'.stack, w) == Keep(st.stack, w)
  {
    KeepIsPrefix(st, w);
    KeepIsPrefix(st', w);
    var n, n' := Cut(st.stack, w), Cut(st'.stack, w);
    if n < |st.stack| {
      assert Match(w, st.stack[n]) && st'.stack[n] == st.stack[n];
      assert n' <= n;
      assert forall j | 0 <= j < n :: st'.stack[j] == st.stack[j] && !Match(w, st'.stack[j]);
      assert st'.stack[..n] == st.stack[..n];
    }
  }

  lemma KeptSteps(st: State, w: Which, base: nat, fuel: nat)
    requires Inv(st) && Fuelled(st.stack, base, fuel) && Proper(w, st.depth) && forall j | 0 <= j < base :: !Match(w, st.stack[j])
    ensures Steps(st, st.(stack := Keep(st.stack, w)), base, fuel)
  {
    KeepIsPrefix(st, w);
    var n := Cut(st.stack, w);
    assert TrimsAt(st.stack, st.stack[..n], st.depth, n);
  }

  // ---- every run ----

  /** What the parts of a statement inherit from it. */
  lemma Parts(s: Stmt)
    ensures s.Block? ==> HasBreak(s) == ListBreaks(s.body) && HasReturn(s) == ListReturns(s.body) && WellFormed(s) == ListFormed(s.body)
    ensures s.If? ==> HasBreak(s) == (HasBreak(s.thn) || HasBreak(s.els)) && HasReturn(s) == (HasReturn(s.thn) || HasReturn(s.els))
    ensures s.If? ==> WellFormed(s) == (WellFormed(s.thn) && WellFormed(s.els)) && Nesting(s) == Max(Nesting(s.thn), Nesting(s.els))
    ensures s.Loop? ==> !HasBreak(s) && HasReturn(s) == HasReturn(s.body1) && WellFormed(s) == WellFormed(s.body1) && Nesting(s) == Nesting(s.body1)
    ensures s.Switch? ==> !HasBreak(s) && HasReturn(s) == ListReturns(s.clauses) && (WellFormed(s) ==> ListFormed(s.clauses))
    ensures s.Switch? ==> Nesting(s) == NestingAll(s.clauses)
    ensures s.Block? ==> Nesting(s) == NestingAll(s.body)
    ensures s.Defer? ==> !HasBreak(s) && !HasReturn(s) && (WellFormed(s) <==> Deferrable(s.deferred)) && Nesting(s) == 1 + Nesting(s.deferred)
    ensures s.Break? || s.Continue? ==> HasBreak(s) && !HasReturn(s)
    ensures s.Return? ==> HasReturn(s) && !HasBreak(s)
  {
  }

  /** Every statement of a well-formed program is generated to its end, and keeps the stack in order. */
  lemma {:induction false} GenSteps(s: Stmt, st: State, base: nat, fuel: nat)
    requires WellFormed(s) && Nesting(s) <= fuel && Allowed(HasBreak(s), HasReturn(s), st, base, fuel)
    ensures Gen(s, st, fuel).ended && Steps(st, Gen(s, st, fuel).st, base, fuel)
    decreases fuel, Size(s), 0
  {
    hide Inv, Fuelled, Allowed, Steps, WellFormed, HasBreak, HasReturn, Nesting, ListReturns, ListBreaks, ListFormed, Emit, GenAll, GenClauses, GenJump, GenBlock;
    Parts(s);
    AllowedInv(HasBreak(s), HasReturn(s), st, base, fuel);
    Still(st, base, fuel);
    match s
    case Plain(_) =>
    case Skip =>
    case Block(b) => BlockSteps(b, st, base, fuel);
    case If(t, e) =>
      var o1 := Gen(t, st, fuel);
      Weaken(HasBreak(s), HasReturn(s), HasBreak(t), HasReturn(t), st, base, fuel);
      GenSteps(t, st, base, fuel);
      Carry(HasBreak(s), HasReturn(s), st, o1.st, base, fuel);
      Weaken(HasBreak(s), HasReturn(s), HasBreak(e), HasReturn(e), o1.st, base, fuel);
      GenSteps(e, o1.st, base, fuel);
      Chain(st, o1.st, Gen(e, o1.st, fuel).st, base, fuel);
    case Loop(b) =>
      Entered(HasBreak(s), HasReturn(s), HasBreak(b), st, base, fuel);
      GenSteps(b, EnterLoop(st), base, fuel);
      LeftLoop(st, Gen(b, EnterLoop(st), fuel).st, base, fuel);
    case Switch(cs) =>
      Entered(HasBreak(s), HasReturn(s), ListBreaks(cs), st, base, fuel);
      ClausesSteps(cs, EnterLoop(st), base, fuel);
      LeftLoop(st, GenClauses(cs, EnterLoop(st), fuel).st, base, fuel);
    case Defer(d) => Pushed(st, d, base, fuel);
    case Break => JumpSteps(Breaks, st, base, fuel);
    case Continue => JumpSteps(Continues, st, base, fuel);
    case Return =>
      BaseZero(HasBreak(s), st, base, fuel);
      EmitSteps(st, All, base, fuel);
  }

  lemma AllowedInv(jumps: bool, leaves: bool, st: State, base: nat, fuel: nat)
    requires Allowed(jumps, leaves, st, base, fuel)
    ensures Inv(st) && Fuelled(st.stack, base, fuel) && base <= |st.stack|
  {
  }

  lemma BaseZero(jumps: bool, st: State, base: nat, fuel: nat)
    requires Allowed(jumps, true, st, base, fuel)
    ensures base == 0
  {
  }

  lemma {:induction false} JumpSteps(jump: Jump, st: State, base: nat, fuel: nat)
    requires Allowed(true, false, st, base, fuel)
    ensures GenJump(jump, st, fuel).ended && Steps(st, GenJump(jump, st, fuel).st, base, fuel)
    decreases fuel, 0, 2
  {
    hide Steps, Emit;
    AllowedInv(true, false, st, base, fuel);
    Still(st, base, fuel);
    if st.loops != [] { EmitSteps(st, From(Top(st.loops) + 1), base, fuel); }
  }

  /** The stack after a compound statement is a prefix of the stack before it. */
  lemma {:induction false} BlockSteps(b: seq<Stmt>, st: State, base: nat, fuel: nat)
    requires ListFormed(b) && NestingAll(b) <= fuel && Allowed(ListBreaks(b), ListReturns(b), st, base, fuel)
    ensures GenBlock(b, st, fuel).ended && Steps(st, GenBlock(b, st, fuel).st, base, fuel)
    ensures Prefix(GenBlock(b, st, fuel).st.stack, st.stack)
    decreases fuel, SizeAll(b), 2
  {
    hide Inv, Fuelled, Allowed, Steps, ListReturns, ListBreaks, ListFormed, Emit, GenAll, Keep, Prefix;
    AllowedInv(ListBreaks(b), ListReturns(b), st, base, fuel);
    Entered(ListBreaks(b), ListReturns(b), ListBreaks(b), st, base, fuel);
    AllSteps(b, EnterBlock(st), base, fuel);
    var o1 := GenAll(b, EnterBlock(st), fuel);
    LeftBlock(st, o1.st, base, fuel);
    StepsInv(EnterBlock(st), o1.st, base, fuel);
    KeepIsPrefix(o1.st, At(st.depth + 1));
    EmitSteps(o1.st, At(st.depth + 1), base, fuel);
  }

  lemma StepsInv(st: State, st1: State, base: nat, fuel: nat)
    requires Steps(st, st1, base, fuel)
    ensures Inv(st1) && Fuelled(st1.stack, base, fuel) && base <= |st1.stack| && st1.depth == st.depth && st1.loops == st.loops
  {
  }

  lemma {:induction false} AllSteps(b: seq<Stmt>, st: State, base: nat, fuel: nat)
    requires ListFormed(b) && NestingAll(b) <= fuel && Allowed(ListBreaks(b), ListReturns(b), st, base, fuel)
    ensures GenAll(b, st, fuel).ended && Steps(st, GenAll(b, st, fuel).st, base, fuel)
    decreases fuel, SizeAll(b), 1
  {
    hide Inv, Fuelled, Allowed, Steps, ListReturns, ListBreaks, ListFormed, Gen, Nesting, HasBreak, HasReturn, WellFormed;
    AllowedInv(ListBreaks(b), ListReturns(b), st, base, fuel);
    Still(st, base, fuel);
    if b != [] {
      ListHead(b);
      var o1 := Gen(b[0], st, fuel);
      Weaken(ListBreaks(b), ListReturns(b), HasBreak(b[0]), HasReturn(b[0]), st, base, fuel);
      GenSteps(b[0], st, base, fuel);
      Carry(ListBreaks(b), ListReturns(b), st, o1.st, base, fuel);
      Weaken(ListBreaks(b), ListReturns(b), ListBreaks(b[1..]), ListReturns(b[1..]), o1.st, base, fuel);
      AllSteps(b[1..], o1.st, base, fuel);
      Chain(st, o1.st, GenAll(b[1..], o1.st, fuel).st, base, fuel);
    }
  }

  lemma {:induction false} ClausesSteps(cs: seq<Stmt>, st: State, base: nat, fuel: nat)
    requires ListFormed(cs) && NestingAll(cs) <= fuel && Allowed(ListBreaks(cs), ListReturns(cs), st, base, fuel)
    ensures GenClauses(cs, st, fuel).ended && Steps(st, GenClauses(cs, st, fuel).st, base, fuel)
    decreases fuel, SizeAll(cs), 1
  {
    hide Inv, Fuelled, Allowed, Steps, ListReturns, ListBreaks, ListFormed, Gen, Nesting, HasBreak, HasReturn, WellFormed;
    AllowedInv(ListBreaks(cs), ListReturns(cs), st, base, fuel);
    Still(st, base, fuel);
    if cs != [] {
      ListHead(cs);
      var o1 := Gen(cs[0], st, fuel);
      Weaken(ListBreaks(cs), ListReturns(cs), HasBreak(cs[0]), HasReturn(cs[0]), st, base, fuel);
      GenSteps(cs[0], st, base, fuel);
      Carry(ListBreaks(cs), ListReturns(cs), st, o1.st, base, fuel);
      Weaken(ListBreaks(cs), ListReturns(cs), ListBreaks(cs[1..]), ListReturns(cs[1..]), o1.st, base, fuel);
      ClausesSteps(cs[1..], o1.st, base, fuel);
      Chain(st, o1.st, GenClauses(cs[1..], o1.st, fuel).st, base, fuel);
    }
  }

  /** An emission ends, and takes exactly the matching entries off the stack. */
  lemma {:induction false} EmitSteps(st: State, w: Which, base: nat, fuel: nat)
    requires Inv(st) && Fuelled(st.stack, base, fuel) && Proper(w, st.depth) && forall j | 0 <= j < base :: !Match(w, st.stack[j])
    ensures var o := Emit(st, w, fuel); o.ended && o.st == st.(stack := st.stack[..Cut(st.stack, w)]) && Steps(st, o.st, base, fuel)
    decreases fuel, 0, 1
  {
    hide Inv, Steps, EmitBelow, Keep, Cut, OnTop, Nesting;
    EmitBelowSteps(st, |st.stack|, w, base, fuel);
    var o := EmitBelow(st, |st.stack|, w, fuel);
    OnTopSame(st, o.st, fuel);
    Dropped(st, o.st, w, fuel);
    KeepIsPrefix(st, w);
    KeptSteps(st, w, base, fuel);
  }

  lemma OnTopSame(st: State, st': State, fuel: nat)
    requires OnTop(st, st', fuel)
    ensures Inv(st') && st'.depth == st.depth && st'.loops == st.loops && |st.stack| <= |st'.stack|
    ensures forall j | 0 <= j < |st.stack| :: st'.stack[j] == st.stack[j]
  {
  }

  lemma {:induction false} EmitBelowSteps(st: State, i: nat, w: Which, base: nat, fuel: nat)
    requires Inv(st) && base <= |st.stack| && i <= |st.stack|
    requires forall j | 0 <= j < base :: !Match(w, st.stack[j])
    requires forall j | base <= j < i :: Nesting(st.stack[j].node) < fuel
    ensures var o := EmitBelow(st, i, w, fuel); o.ended && OnTop(st, o.st, fuel)
    ensures (forall j | 0 <= j < i :: !Match(w, st.stack[j])) ==> EmitBelow(st, i, w, fuel).st == st
    decreases fuel, 0, 0, i
  {
    hide Inv, OnTop, Steps, Allowed, Nesting, Match, Gen;
    OnTopSelf(st, fuel);
    if i > 0 {
      if Match(w, st.stack[i - 1]) {
        Emitted(st, i, fuel);
        var o1 := Gen(st.stack[i - 1].node, st, fuel - 1);
        GenSteps(st.stack[i - 1].node, st, |st.stack|, fuel - 1);
        TopOf(st, o1.st, fuel - 1);
        OnTopSame(st, o1.st, fuel);
        EmitBelowSteps(o1.st, i - 1, w, base, fuel);
        TopChain(st, o1.st, EmitBelow(o1.st, i - 1, w, fuel).st, fuel);
      } else {
        EmitBelowSteps(st, i - 1, w, base, fuel);
      }
    }
  }

  lemma OnTopSelf(st: State, fuel: nat)
    requires Inv(st)
    ensures OnTop(st, st, fuel)
  {
  }

  lemma Emitted(st: State, i: nat, fuel: nat)
    requires Inv(st) && 0 < i <= |st.stack| && Nesting(st.stack[i - 1].node) < fuel
    ensures var d := st.stack[i - 1].node; WellFormed(d) && !HasReturn(d) && !HasBreak(d)
    ensures Allowed(false, false, st, |st.stack|, fuel - 1)
  {
  }
}
