/** The order in which deferred code runs: each scope's defers, last first, where the scope ends or is left. */
module DeferOrder {
  import opened Defers
  import opened DeferDiscipline
  import opened DeferStack

  // ---- the reference order ----

  /** The code of a statement when leaving the procedure must first run ret, and leaving the loop must first run brk.
      A defer is its code moved behind the rest of its scope. */
  function Ref(s: Stmt, ret: seq<Code>, brk: seq<Code>): seq<Code>
    decreases s, 0
  {
    match s
    case Plain(a) => [Do(a)]
    case Skip => []
    case Block(b) => RefAll(b, ret, brk)
    case If(t, e) => [Branch(Ref(t, ret, brk), Ref(e, ret, brk))]
    case Loop(b) => [Repeat(Ref(b, ret, []))]
    case Switch(cs) => [Choose(RefClauses(cs, ret))]
    case Defer(d) => Ref(d, [], [])
    case Break => brk + [Exit(Breaks)]
    case Continue => brk + [Exit(Continues)]
    case Return => ret + [Exit(Returns)]
  }

  function RefAll(b: seq<Stmt>, ret: seq<Code>, brk: seq<Code>): seq<Code>
    decreases b, 0
  {
    if b == [] then []
    else if b[0].Defer? then
      var code := Ref(b[0], [], []);
      RefAll(b[1..], code + ret, code + brk) + if ExitsAll(b[1..]) then [] else code
    else Ref(b[0], ret, brk) + RefAll(b[1..], ret, brk)
  }

  function RefClauses(cs: seq<Stmt>, ret: seq<Code>): seq<Arm>
    decreases cs, 0
  {
    if cs == [] then [] else [Arm(Ref(cs[0], ret, []))] + RefClauses(cs[1..], ret)
  }

  /** The statement always leaves, so nothing behind it is reached. */
  predicate Exits(s: Stmt) {
    match s
    case Block(b) => exists i | 0 <= i < |b| :: Exits(b[i])
    case Break => true
    case Continue => true
    case Return => true
    case _ => false
  }

  predicate ExitsAll(b: seq<Stmt>) { exists i | 0 <= i < |b| :: Exits(b[i]) }

  // ---- when the generator follows it ----

  /** No conditional exit while defers are pending that the other path still needs, and nothing behind an exit.
      rp: some defer is pending; bp: some defer is pending since the innermost loop or switch. */
  predicate Safe(s: Stmt, rp: bool, bp: bool)
    decreases s, 0
  {
    match s
    case Block(b) => SafeAll(b, rp, bp)
    case If(t, e) => Spares(t, rp, bp) && Spares(e, rp, bp)
    case Loop(b) => (HasReturn(b) ==> !rp) && !b.Defer? && Safe(b, rp, false)
    case Switch(cs) => SafeClauses(cs, rp)
    case Defer(d) => !d.Defer? && Safe(d, true, true)
    case _ => true
  }

  predicate Spares(s: Stmt, rp: bool, bp: bool)
    decreases s, 1
  {
    !s.Defer? && (HasReturn(s) ==> !rp) && (HasBreak(s) ==> !bp) && Safe(s, rp, bp)
  }

  predicate SafeAll(b: seq<Stmt>, rp: bool, bp: bool)
    decreases b, 0
  {
    b == [] || (Safe(b[0], rp, bp) && (Exits(b[0]) ==> b[1..] == []) && SafeAll(b[1..], rp || b[0].Defer?, bp || b[0].Defer?))
  }

  predicate SafeClauses(cs: seq<Stmt>, rp: bool)
    decreases cs, 0
  {
    cs == [] || (cs[0].Block? && (HasReturn(cs[0]) ==> !rp) && Safe(cs[0], rp, false) && SafeClauses(cs[1..], rp))
  }

  /** How much room on the stack a statement may take up, the code it defers included. */
  function Space(s: Stmt): nat {
    match s
    case Block(b) => SpaceAll(b)
    case If(t, e) => Max(Space(t), Space(e))
    case Loop(b) => Space(b)
    case Switch(cs) => SpaceEach(cs)
    case Defer(d) => 1 + Space(d)
    case _ => 0
  }

  function SpaceAll(b: seq<Stmt>): nat {
    if b == [] then 0
    else if b[0].Defer? then Space(b[0]) + SpaceAll(b[1..])
    else Max(Space(b[0]), SpaceAll(b[1..]))
  }

  function SpaceEach(cs: seq<Stmt>): nat { if cs == [] then 0 else Max(Space(cs[0]), SpaceEach(cs[1..])) }

  // ---- the pending code ----

  function Pending(stack: seq<Entry>): seq<Code> {
    if stack == [] then [] else Ref(stack[|stack| - 1].node, [], []) + Pending(stack[..|stack| - 1])
  }

  /** From where on a jump out of the innermost loop emits. */
  function LoopCut(st: State): (n: nat)
    ensures n <= |st.stack|
  {
    if st.loops == [] then 0 else Cut(st.stack, From(Top(st.loops) + 1))
  }

  function RetCode(st: State): seq<Code> { Pending(st.stack) }

  function BrkCode(st: State): seq<Code> { Pending(st.stack[LoopCut(st)..]) }

  /** The entries from base on can be emitted here. */
  ghost predicate Neat(st: State, base: nat, n: nat) {
    && |st.stack| + n <= MAX_DEFERS
    && forall i | base <= i < |st.stack| :: Good(st.stack[i].node) && |st.stack| + n + Space(st.stack[i].node) <= MAX_DEFERS
  }

  predicate Good(d: Stmt) { !d.Defer? && Placed(d) && Safe(d, true, true) && Deferrable(d) }

  // ---- reference code does not depend on exits it does not have ----

  lemma {:induction false} RefSame(s: Stmt, ret: seq<Code>, brk: seq<Code>, ret': seq<Code>, brk': seq<Code>)
    requires (HasReturn(s) ==> ret == ret') && (HasBreak(s) ==> brk == brk')
    ensures Ref(s, ret, brk) == Ref(s, ret', brk')
    decreases s, 0
  {
    hide HasReturn, HasBreak, ListReturns, ListBreaks, WellFormed, Nesting;
    Parts(s);
    match s
    case Plain(_) =>
    case Skip =>
    case Block(b) => RefAllSame(b, ret, brk, ret', brk');
    case If(t, e) =>
      RefSame(t, ret, brk, ret', brk');
      RefSame(e, ret, brk, ret', brk');
    case Loop(b) => RefSame(b, ret, [], ret', []);
    case Switch(cs) => RefClausesSame(cs, ret, ret');
    case Defer(_) =>
    case Break =>
    case Continue =>
    case Return =>
  }

  lemma {:induction false} RefAllSame(b: seq<Stmt>, ret: seq<Code>, brk: seq<Code>, ret': seq<Code>, brk': seq<Code>)
    requires (ListReturns(b) ==> ret == ret') && (ListBreaks(b) ==> brk == brk')
    ensures RefAll(b, ret, brk) == RefAll(b, ret', brk')
    decreases b, 0
  {
    hide ListReturns, ListBreaks, Ref, ExitsAll;
    if b != [] {
      ListHead(b);
      if b[0].Defer? {
        var code := Ref(b[0], [], []);
        RefAllSame(b[1..], code + ret, code + brk, code + ret', code + brk');
      } else {
        RefSame(b[0], ret, brk, ret', brk');
        RefAllSame(b[1..], ret, brk, ret', brk');
      }
    }
  }

  lemma {:induction false} RefClausesSame(cs: seq<Stmt>, ret: seq<Code>, ret': seq<Code>)
    requires ListReturns(cs) ==> ret == ret'
    ensures RefClauses(cs, ret) == RefClauses(cs, ret')
    decreases cs, 0
  {
    hide ListReturns, Ref;
    if cs != [] {
      ListHead(cs);
      RefSame(cs[0], ret, [], ret', []);
      RefClausesSame(cs[1..], ret, ret');
    }
  }

  /** Fewer pending defers are safe too. */
  lemma {:induction false} SafeLess(s: Stmt, rp: bool, bp: bool, rp': bool, bp': bool)
    requires Safe(s, rp, bp) && (rp' ==> rp) && (bp' ==> bp)
    ensures Safe(s, rp', bp')
    decreases s, 0
  {
    match s
    case Plain(_) =>
    case Skip =>
    case Block(b) => SafeAllLess(b, rp, bp, rp', bp');
    case If(t, e) =>
      SafeLess(t, rp, bp, rp', bp');
      SafeLess(e, rp, bp, rp', bp');
    case Loop(b) => SafeLess(b, rp, false, rp', false);
    case Switch(cs) => SafeClausesLess(cs, rp, rp');
    case Defer(_) =>
    case Break =>
    case Continue =>
    case Return =>
  }

  lemma {:induction false} SafeAllLess(b: seq<Stmt>, rp: bool, bp: bool, rp': bool, bp': bool)
    requires SafeAll(b, rp, bp) && (rp' ==> rp) && (bp' ==> bp)
    ensures SafeAll(b, rp', bp')
    decreases b, 0
  {
    hide Safe;
    if b != [] {
      SafeLess(b[0], rp, bp, rp', bp');
      SafeAllLess(b[1..], rp || b[0].Defer?, bp || b[0].Defer?, rp' || b[0].Defer?, bp' || b[0].Defer?);
    }
  }

  lemma {:induction false} SafeClausesLess(cs: seq<Stmt>, rp: bool, rp': bool)
    requires SafeClauses(cs, rp) && (rp' ==> rp)
    ensures SafeClauses(cs, rp')
    decreases cs, 0
  {
    hide Safe;
    if cs != [] {
      SafeLess(cs[0], rp, false, rp', false);
      SafeClausesLess(cs[1..], rp, rp');
    }
  }

  lemma ExitsHead(b: seq<Stmt>)
    requires b != []
    ensures ExitsAll(b) <==> Exits(b[0]) || ExitsAll(b[1..])
  {
    hide Exits;
    if ExitsAll(b) {
      var i :| 0 <= i < |b| && Exits(b[i]);
      if i > 0 { assert Exits(b[1..][i - 1]); }
    }
  }

  /** A safe statement that may be passed has no exit that would take pending defers with it. */
  lemma {:induction false} SafeStays(s: Stmt, rp: bool, bp: bool)
    requires Safe(s, rp, bp) && !Exits(s)
    ensures (HasReturn(s) ==> !rp) && (HasBreak(s) ==> !bp)
    decreases s, 0
  {
    hide HasReturn, HasBreak, ListReturns, ListBreaks, WellFormed, Nesting;
    Parts(s);
    match s
    case Plain(_) => NoExits(s);
    case Skip => NoExits(s);
    case Block(b) => SafeAllStays(b, rp, bp);
    case If(t, e) =>
    case Loop(b) =>
    case Switch(cs) => SafeClausesStay(cs, rp);
    case Defer(_) =>
  }

  lemma {:induction false} SafeAllStays(b: seq<Stmt>, rp: bool, bp: bool)
    requires SafeAll(b, rp, bp) && !ExitsAll(b)
    ensures (ListReturns(b) ==> !rp) && (ListBreaks(b) ==> !bp)
    decreases b, 0
  {
    hide Safe, ListReturns, ListBreaks, HasReturn, HasBreak, Exits;
    NoneInEmpty();
    if b != [] {
      ListHead(b);
      ExitsHead(b);
      SafeStays(b[0], rp, bp);
      SafeAllStays(b[1..], rp || b[0].Defer?, bp || b[0].Defer?);
    }
  }

  lemma {:induction false} SafeClausesStay(cs: seq<Stmt>, rp: bool)
    requires SafeClauses(cs, rp)
    ensures ListReturns(cs) ==> !rp
    decreases cs, 0
  {
    hide Safe, ListReturns, ListBreaks, HasReturn, HasBreak;
    NoneInEmpty();
    if cs != [] {
      ListHead(cs);
      SafeClausesStay(cs[1..], rp);
    }
  }

  // ---- facts about the pending code ----

  lemma PendingPush(stack: seq<Entry>, e: Entry)
    ensures Pending(stack + [e]) == Ref(e.node, [], []) + Pending(stack)
  {
    assert (stack + [e])[..|stack|] == stack;
  }

  lemma BrkPush(st: State, st1: State, d: Stmt)
    requires Inv(st) && st1 == st.(stack := st.stack + [Entry(d, st.depth)])
    requires st.loops == [] || Top(st.loops) < st.depth
    ensures BrkCode(st1) == Ref(d, [], []) + BrkCode(st) && RetCode(st1) == Ref(d, [], []) + RetCode(st)
    ensures LoopCut(st1) == LoopCut(st) < |st1.stack|
  {
    hide Ref, Cut;
    var e := Entry(d, st.depth);
    if st.loops != [] {
      var w := From(Top(st.loops) + 1);
      assert st1.stack[..|st.stack|] == st.stack;
      CutOfPrefix(st1.stack, |st.stack|, w);
      CutHits(st1.stack, w, |st.stack|);
    }
    assert st1.stack[LoopCut(st)..] == st.stack[LoopCut(st)..] + [e];
    PendingPush(st.stack[LoopCut(st)..], e);
    PendingPush(st.stack, e);
  }

  lemma BrkInLoop(st: State)
    requires Inv(st)
    ensures BrkCode(EnterLoop(st)) == [] && RetCode(EnterLoop(st)) == RetCode(st) && LoopCut(EnterLoop(st)) == |st.stack|
  {
    CutWhole(st.stack, From(st.depth + 1));
  }

  /** What is needed to generate code in reference order. */
  ghost predicate Ready(s: Stmt, st: State, base: nat, fuel: nat) {
    && WellFormed(s) && Nesting(s) <= fuel && Allowed(HasBreak(s), HasReturn(s), st, base, fuel)
    && Placed(s) && Neat(st, base, Space(s)) && (HasBreak(s) ==> st.loops != [])
    && Safe(s, st.stack != [], LoopCut(st) < |st.stack|)
  }

  ghost predicate ListPlaced(b: seq<Stmt>) { forall i | 0 <= i < |b| :: Placed(b[i]) }

  ghost predicate ListReady(b: seq<Stmt>, st: State, base: nat, fuel: nat) {
    && ListFormed(b) && NestingAll(b) <= fuel && Allowed(ListBreaks(b), ListReturns(b), st, base, fuel)
    && ListPlaced(b) && Neat(st, base, SpaceAll(b)) && (ListBreaks(b) ==> st.loops != [])
    && SafeAll(b, st.stack != [], LoopCut(st) < |st.stack|)
  }
}
