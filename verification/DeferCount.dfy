/** The emitted order is the reference order exactly when no conditional exit takes pending defers along: the count of
    actions, step by step through the generator. */
module DeferCount {
  import opened Defers
  import opened DeferDiscipline
  import opened DeferStack
  import opened DeferOrder
  import opened DeferMeaning
  import opened DeferExact

  /** No more actions than in the reference; as many only if the statement is safe or something is missing afterwards. */
  ghost predicate Counted(gen: nat, ref: nat, safe: bool, after: seq<Entry>, r: seq<nat>, m: nat) {
    gen <= ref && (gen == ref ==> safe || Lacks(after, r, m))
  }

  /** At the depths that an exit emits nothing was missing. */
  ghost predicate Full(own: seq<Entry>, r: seq<nat>, m: nat) {
    forall k: nat | m <= k < |r| :: WorthAt(own, k) == r[k]
  }

  /** From where on an exit must find everything. */
  function ExitFrom(st: State): nat { if st.loops == [] then 0 else Top(st.loops) + 1 }

  lemma {:induction false} GenCount(s: Stmt, st: State, base: nat, fuel: nat, r: seq<nat>, ret: seq<Code>, brk: seq<Code>)
    requires Set(s, st, base, fuel) && !s.Defer? && Accounts(st, base, r, ret, brk)
    ensures var o := Gen(s, st, fuel);
      && base <= |o.st.stack|
      && Counted(Runs(o.code), Runs(Ref(s, ret, brk)), Safe(s, ReturnPending(r), BreakPending(st, r)), o.st.stack[base..], r, Beyond(st, Exits(s)))
      && (Exits(s) && Runs(o.code) == Runs(Ref(s, ret, brk)) ==> Full(st.stack[base..], r, ExitFrom(st)))
    decreases fuel, Size(s), 0
  {
    hide Inv, Fuelled, Allowed, Set, ListSet, WellFormed, HasBreak, HasReturn, Nesting, Emit, GenAll, Room, Placed, NoDead, Telling;
    hide Cut, Space, Accounts, Lacks, Full, WorthAt, Sum;
    OwnAfter(s, st, base, fuel);
    match s
    case Plain(a) => PlainCount(a, st, base, r);
    case Skip => NoExits(s);
    case Block(b) => BlockCount(b, st, base, fuel, r, ret, brk);
    case If(t, e) => IfCount(t, e, st, base, fuel, r, ret, brk);
    case Loop(b) => LoopCount(b, st, base, fuel, r, ret, brk);
    case Switch(cs) => SwitchCount(cs, st, base, fuel, r, ret, brk);
    case Break => JumpCount(Break, Breaks, st, base, fuel, r, ret, brk);
    case Continue => JumpCount(Continue, Continues, st, base, fuel, r, ret, brk);
    case Return => ReturnCount(st, base, fuel, r, ret, brk);
  }

  lemma PlainCount(a: nat, st: State, base: nat, r: seq<nat>)
    ensures !Exits(Plain(a))
  {
  }

  // ---- emitting ----

  lemma {:induction false} EmitCount(st: State, w: Which, m: nat, base: nat, fuel: nat)
    requires Inv(st) && Fuelled(st.stack, base, fuel) && Room(st, base, 0) && base <= |st.stack|
    requires forall j | 0 <= j < |st.stack| :: Match(w, st.stack[j]) <==> st.stack[j].depth >= m
    requires forall j | 0 <= j < base :: st.stack[j].depth < m
    ensures Runs(Emit(st, w, fuel).code) <= WorthFrom(st.stack[base..], m)
    decreases fuel, 0, 1
  {
    hide Inv, Fuelled, Room, EmitBelow, Match, Keep;
    EmitBelowCount(st, |st.stack|, w, m, base, fuel);
    assert st.stack[base..|st.stack|] == st.stack[base..];
  }

  lemma {:induction false} EmitBelowCount(st: State, i: nat, w: Which, m: nat, base: nat, fuel: nat)
    requires Inv(st) && Fuelled(st.stack, base, fuel) && Room(st, base, 0) && i <= |st.stack|
    requires forall j | 0 <= j < |st.stack| :: Match(w, st.stack[j]) <==> st.stack[j].depth >= m
    requires forall j | 0 <= j < base :: st.stack[j].depth < m
    ensures EmitBelow(st, i, w, fuel).st == st
    ensures Runs(EmitBelow(st, i, w, fuel).code) <= if i > base then WorthFrom(st.stack[base..i], m) else 0
    decreases fuel, 0, 0, i
  {
    hide Inv, Fuelled, Room, Match, Gen, Worth, Runs, WorthFrom;
    if i == 0 {
      RunsEmpty();
    } else {
      if i > base { WorthLast(st.stack, base, i, m); }
      if Match(w, st.stack[i - 1]) {
        EntryCount(st, i, base, fuel);
        EmitBelowCount(st, i - 1, w, m, base, fuel);
        RunsPlus(Gen(st.stack[i - 1].node, st, fuel - 1).code, EmitBelow(st, i - 1, w, fuel).code);
      } else {
        EmitBelowCount(st, i - 1, w, m, base, fuel);
      }
    }
  }

  lemma RunsEmpty()
    ensures Runs([]) == 0
  {
  }

  lemma WorthLast(stack: seq<Entry>, base: nat, i: nat, m: nat)
    requires base < i <= |stack|
    ensures WorthFrom(stack[base..i], m) ==
      (if i - 1 > base then WorthFrom(stack[base..i - 1], m) else 0) + if stack[i - 1].depth >= m then Worth(stack[i - 1]) else 0
  {
    hide Worth;
    assert stack[base..i][..i - 1 - base] == stack[base..i - 1];
    if i - 1 == base { assert stack[base..i - 1] == []; }
  }

  /** One pending entry: it changes nothing on the stack, and emits what it is worth at most. */
  lemma {:induction false} EntryCount(st: State, i: nat, base: nat, fuel: nat)
    requires Inv(st) && Fuelled(st.stack, base, fuel) && Room(st, base, 0) && base < i <= |st.stack|
    ensures fuel > 0
    ensures var o := Gen(st.stack[i - 1].node, st, fuel - 1); o.st == st && Runs(o.code) <= Worth(st.stack[i - 1])
    decreases fuel, 0, 0, i, 0
  {
    hide Inv, Gen, Ref, Safe, HasReturn, HasBreak, WellFormed, Nesting, Placed, Allowed, Room, Fine, Sum, Lacks, Runs, NoDead, Telling;
    var d := st.stack[i - 1].node;
    EntrySet(st, i, base, fuel);
    SetParts(d, st, |st.stack|, fuel - 1);
    StaysPut(d, st, |st.stack|, fuel - 1);
    var r := seq(st.depth + 1, _ => 0);
    NothingPending(st, r);
    GenCount(d, st, |st.stack|, fuel - 1, r, [], []);
    NoLack(Gen(d, st, fuel - 1).st.stack[|st.stack|..], r, Beyond(st, Exits(d)));
    if Safe(d, ReturnPending(r), BreakPending(st, r)) {
      SafeFlags(d, ReturnPending(r), BreakPending(st, r), true, true);
    }
  }

  lemma EntrySet(st: State, i: nat, base: nat, fuel: nat)
    requires Inv(st) && Fuelled(st.stack, base, fuel) && Room(st, base, 0) && base < i <= |st.stack|
    ensures var d := st.stack[i - 1].node;
      fuel > 0 && Set(d, st, |st.stack|, fuel - 1) && !d.Defer? && !HasReturn(d) && !HasBreak(d) && Weight(d) > 0
  {
    hide Inv;
    Emitted(st, i, fuel);
  }

  lemma NothingPending(st: State, r: seq<nat>)
    requires r == seq(st.depth + 1, _ => 0)
    ensures Accounts(st, |st.stack|, r, [], [])
  {
    SumZero(r, 0);
    if st.loops != [] { SumZero(r, Top(st.loops) + 1); }
    assert st.stack[|st.stack|..] == [];
  }

  lemma NoLack(stack: seq<Entry>, r: seq<nat>, m: nat)
    requires forall d: nat | d < |r| :: r[d] == 0
    ensures !Lacks(stack, r, m)
  {
  }

  // ---- exits ----

  lemma {:induction false} JumpCount(s: Stmt, jump: Jump, st: State, base: nat, fuel: nat, r: seq<nat>, ret: seq<Code>, brk: seq<Code>)
    requires (s == Break && jump == Breaks) || (s == Continue && jump == Continues)
    requires Set(s, st, base, fuel) && Accounts(st, base, r, ret, brk)
    ensures Runs(GenJump(jump, st, fuel).code) <= Runs(Ref(s, ret, brk)) && Safe(s, ReturnPending(r), BreakPending(st, r)) && Exits(s)
    ensures Runs(GenJump(jump, st, fuel).code) == Runs(Ref(s, ret, brk)) ==> Full(st.stack[base..], r, ExitFrom(st))
    decreases fuel, 0, 2
  {
    hide Inv, Fuelled, Emit, Sum, Runs, WorthFrom, Covered;
    JumpReaches(s, st, base, fuel);
    var m := Top(st.loops) + 1;
    EmitCount(st, From(m), m, base, fuel);
    CoveredSum(st.stack[base..], r, m);
    RunsPlus(Emit(st, From(m), fuel).code, [Exit(jump)]);
    RunsPlus(brk, [Exit(jump)]);
    RunsOne(Exit(jump));
  }

  lemma JumpReaches(s: Stmt, st: State, base: nat, fuel: nat)
    requires Set(s, st, base, fuel) && (s.Break? || s.Continue?)
    ensures st.loops != [] && Inv(st) && Fuelled(st.stack, base, fuel) && Room(st, base, 0)
    ensures forall j | 0 <= j < base :: st.stack[j].depth < Top(st.loops) + 1
  {
  }

  lemma {:induction false} ReturnCount(st: State, base: nat, fuel: nat, r: seq<nat>, ret: seq<Code>, brk: seq<Code>)
    requires Set(Return, st, base, fuel) && Accounts(st, base, r, ret, brk)
    ensures Runs(Gen(Return, st, fuel).code) <= Runs(Ref(Return, ret, brk)) && Safe(Return, ReturnPending(r), BreakPending(st, r)) && Exits(Return)
    ensures Runs(Gen(Return, st, fuel).code) == Runs(Ref(Return, ret, brk)) ==> Full(st.stack[base..], r, ExitFrom(st))
    decreases fuel, 0, 2
  {
    hide Inv, Fuelled, Emit, Sum, Runs, WorthFrom, Covered;
    ReturnReaches(st, base, fuel);
    EmitCount(st, All, 0, base, fuel);
    CoveredSum(st.stack[base..], r, 0);
    RunsPlus(Emit(st, All, fuel).code, [Exit(Returns)]);
    RunsPlus(ret, [Exit(Returns)]);
    RunsOne(Exit(Returns));
  }

  lemma ReturnReaches(st: State, base: nat, fuel: nat)
    requires Set(Return, st, base, fuel)
    ensures base == 0 && Inv(st) && Fuelled(st.stack, base, fuel) && Room(st, base, 0)
  {
  }

  // ---- branches ----

  lemma IfSet(t: Stmt, e: Stmt, st: State, base: nat, fuel: nat)
    requires Set(If(t, e), st, base, fuel)
    ensures Set(t, st, base, fuel) && !t.Defer? && !e.Defer? && Set(e, Gen(t, st, fuel).st, base, fuel)
  {
    hide Gen, Safe, Placed, WellFormed, Nesting, HasReturn, HasBreak, Space, Allowed, Room, NoDead, Telling, Inv, Fuelled, Steps;
    var s := If(t, e);
    SetParts(s, st, base, fuel);
    Parts(s);
    SafeParts(s, true, true);
    LooseParts(s);
    Weaken(HasBreak(s), HasReturn(s), HasBreak(t), HasReturn(t), st, base, fuel);
    MakeSet(t, st, base, fuel, Space(s));
    OwnAfter(t, st, base, fuel);
    var st1 := Gen(t, st, fuel).st;
    Carry(HasBreak(s), HasReturn(s), st, st1, base, fuel);
    Weaken(HasBreak(s), HasReturn(s), HasBreak(e), HasReturn(e), st1, base, fuel);
    RoomPrefix(st, st1, base, Space(s), Space(s));
    MakeSet(e, st1, base, fuel, Space(s));
  }

  /** The parts of a statement for the remaining conditions. */
  lemma LooseParts(s: Stmt)
    ensures s.If? ==> (Placed(s) ==> !s.thn.Defer? && !s.els.Defer?) && NoDead(s) == (NoDead(s.thn) && NoDead(s.els)) && Telling(s) == (Telling(s.thn) && Telling(s.els))
    ensures s.Loop? ==> (Placed(s) ==> Placed(s.body1) && !s.body1.Defer?) && NoDead(s) == NoDead(s.body1) && Telling(s) == Telling(s.body1) && Space(s) == Space(s.body1)
    ensures s.Block? ==> NoDead(s) == NoDeadAll(s.body) && Telling(s) == TellingAll(s.body) && Exits(s) == ExitsAll(s.body)
    ensures s.Switch? ==> NoDead(s) == NoDeadEach(s.clauses) && Telling(s) == TellingAll(s.clauses)
    ensures s.Defer? ==> NoDead(s) == NoDead(s.deferred) && Telling(s) == (Telling(s.deferred) && Weight(s.deferred) > 0)
    ensures s.If? || s.Loop? || s.Switch? || s.Defer? ==> !Exits(s)
  {
  }

  lemma {:induction false} IfCount(t: Stmt, e: Stmt, st: State, base: nat, fuel: nat, r: seq<nat>, ret: seq<Code>, brk: seq<Code>)
    requires Set(If(t, e), st, base, fuel) && Accounts(st, base, r, ret, brk)
    ensures var s := If(t, e); var o := Gen(s, st, fuel);
      && base <= |o.st.stack| && !Exits(s)
      && Counted(Runs(o.code), Runs(Ref(s, ret, brk)), Safe(s, ReturnPending(r), BreakPending(st, r)), o.st.stack[base..], r, st.depth + 1)
    decreases fuel, Size(If(t, e)), -1
  {
    hide Safe, Spares, Set, Accounts, Lacks, Sum, Runs, HasReturn, HasBreak, Exits, Space, ReturnPending, BreakPending, Counted, Gen, Full;
    var s := If(t, e);
    IfSet(t, e, st, base, fuel);
    IfCode(t, e, st, fuel);
    LooseParts(s);
    OwnAfter(s, st, base, fuel);
    OwnAfter(t, st, base, fuel);
    GenCount(t, st, base, fuel, r, ret, brk);
    AccountsAfter(t, st, base, fuel, r, ret, brk);
    var o1 := Gen(t, st, fuel);
    GenCount(e, o1.st, base, fuel, r, ret, brk);
    IfJoins(t, e, st, base, fuel, r, ret, brk);
  }

  /** The counts of the arms added up. */
  lemma IfJoins(t: Stmt, e: Stmt, st: State, base: nat, fuel: nat, r: seq<nat>, ret: seq<Code>, brk: seq<Code>)
    requires Set(t, st, base, fuel) && !t.Defer? && !e.Defer? && Accounts(st, base, r, ret, brk)
    requires Set(e, Gen(t, st, fuel).st, base, fuel) && Accounts(Gen(t, st, fuel).st, base, r, ret, brk)
    requires ArmCounted(t, st, base, fuel, r, ret, brk) && ArmCounted(e, Gen(t, st, fuel).st, base, fuel, r, ret, brk)
    ensures var o := Gen(If(t, e), st, fuel);
      && base <= |o.st.stack|
      && Counted(Runs(o.code), Runs(Ref(If(t, e), ret, brk)), Safe(If(t, e), ReturnPending(r), BreakPending(st, r)), o.st.stack[base..], r, st.depth + 1)
  {
    hide Safe, Spares, Set, Accounts, Lacks, Sum, Runs, Gen, ReturnPending, BreakPending;
    IfCode(t, e, st, fuel);
    var o1 := Gen(t, st, fuel);
    var o2 := Gen(e, o1.st, fuel);
    RunsOne(Branch(o1.code, o2.code));
    RunsOne(Branch(Ref(t, ret, brk), Ref(e, ret, brk)));
    var own := o2.st.stack[base..];
    if Runs(o1.code) == Runs(Ref(t, ret, brk)) && Runs(o2.code) == Runs(Ref(e, ret, brk)) && !Lacks(own, r, st.depth + 1) {
      IfSpares(t, e, st, base, fuel, r, ret, brk);
    }
  }

  /** What the count says of one arm. */
  ghost predicate ArmCounted(s: Stmt, st: State, base: nat, fuel: nat, r: seq<nat>, ret: seq<Code>, brk: seq<Code>) {
    var o := Gen(s, st, fuel);
    && base <= |o.st.stack|
    && Counted(Runs(o.code), Runs(Ref(s, ret, brk)), Safe(s, ReturnPending(r), BreakPending(st, r)), o.st.stack[base..], r, Beyond(st, Exits(s)))
  }

  /** Both arms are safe when both counts are exact and nothing is missing behind them. */
  lemma IfSpares(t: Stmt, e: Stmt, st: State, base: nat, fuel: nat, r: seq<nat>, ret: seq<Code>, brk: seq<Code>)
    requires Set(t, st, base, fuel) && !t.Defer? && !e.Defer? && Accounts(st, base, r, ret, brk)
    requires Set(e, Gen(t, st, fuel).st, base, fuel) && Accounts(Gen(t, st, fuel).st, base, r, ret, brk)
    requires ArmCounted(t, st, base, fuel, r, ret, brk) && ArmCounted(e, Gen(t, st, fuel).st, base, fuel, r, ret, brk)
    requires Runs(Gen(t, st, fuel).code) == Runs(Ref(t, ret, brk))
    requires Runs(Gen(e, Gen(t, st, fuel).st, fuel).code) == Runs(Ref(e, ret, brk))
    requires !Lacks(Gen(e, Gen(t, st, fuel).st, fuel).st.stack[base..], r, st.depth + 1)
    ensures Safe(If(t, e), ReturnPending(r), BreakPending(st, r))
  {
    hide Safe, Spares, Set, Accounts, Lacks, Sum, Runs, HasReturn, HasBreak, Exits, Gen, ReturnPending, BreakPending;
    OwnAfter(t, st, base, fuel);
    var o1 := Gen(t, st, fuel);
    OwnAfter(e, o1.st, base, fuel);
    var own := Gen(e, o1.st, fuel).st.stack[base..];
    var n := Left(HasReturn(e), HasBreak(e), o1.st) - base;
    ArmSpares(t, st, base, fuel, r, ret, brk, o1.st.stack[base..], n, own);
    ArmSpares(e, o1.st, base, fuel, r, ret, brk, own, |own|, own);
    SparesBoth(t, e, st, o1.st, r);
  }

  lemma AccountsLength(st: State, base: nat, r: seq<nat>, ret: seq<Code>, brk: seq<Code>)
    requires Accounts(st, base, r, ret, brk)
    ensures |r| == st.depth + 1
  {
  }

  /** An arm after which nothing is missing, even at the end, is safe and has no exit that others would miss. */
  lemma ArmSpares(s: Stmt, st: State, base: nat, fuel: nat, r: seq<nat>, ret: seq<Code>, brk: seq<Code>, after: seq<Entry>, n: nat, last: seq<Entry>)
    requires Set(s, st, base, fuel) && !s.Defer? && Accounts(st, base, r, ret, brk)
    requires base <= |Gen(s, st, fuel).st.stack| && after == Gen(s, st, fuel).st.stack[base..] && n <= |after| && last == after[..n]
    requires Safe(s, ReturnPending(r), BreakPending(st, r)) || Lacks(after, r, Beyond(st, Exits(s)))
    requires !Lacks(last, r, st.depth + 1)
    ensures Spares(s, ReturnPending(r), BreakPending(st, r))
  {
    hide Safe, Set, Lacks, Sum, Runs, HasReturn, HasBreak, Exits, Gen, Covered;
    SetParts(s, st, base, fuel);
    BeyondBound(st, Exits(s));
    if Lacks(after, r, Beyond(st, Exits(s))) { LacksPrefix(after, n, r, Beyond(st, Exits(s)), st.depth + 1); }
    if (HasReturn(s) && Sum(r, 0) > 0) || (HasBreak(s) && st.loops != [] && Sum(r, Top(st.loops) + 1) > 0) {
      ExitLacks(s, st, base, fuel, r);
      LacksPrefix(after, n, r, st.depth + 1, st.depth + 1);
    }
  }

  lemma BeyondBound(st: State, exits: bool)
    requires Inv(st)
    ensures Beyond(st, exits) <= st.depth + 1
  {
  }

  lemma SparesBoth(t: Stmt, e: Stmt, st: State, st1: State, r: seq<nat>)
    requires st1.loops == st.loops
    requires Spares(t, ReturnPending(r), BreakPending(st, r)) && Spares(e, ReturnPending(r), BreakPending(st1, r))
    ensures Safe(If(t, e), ReturnPending(r), BreakPending(st, r))
  {
  }

  // ---- loops ----

  lemma LoopSet(b: Stmt, st: State, base: nat, fuel: nat)
    requires Set(Loop(b), st, base, fuel)
    ensures Set(b, EnterLoop(st), base, fuel) && !b.Defer? && Inv(st)
  {
    hide Placed, WellFormed, Nesting, HasReturn, HasBreak, Space, Allowed, Fine, NoDead, Telling, Inv, Fuelled;
    var s := Loop(b);
    SetParts(s, st, base, fuel);
    Parts(s);
    LooseParts(s);
    Entered(HasBreak(s), HasReturn(s), HasBreak(b), st, base, fuel);
    MakeSet(b, EnterLoop(st), base, fuel, Space(s));
  }

  lemma LoopAccounts(st: State, base: nat, r: seq<nat>, ret: seq<Code>, brk: seq<Code>)
    requires Accounts(st, base, r, ret, brk)
    ensures Accounts(EnterLoop(st), base, r, ret, [])
    ensures !BreakPending(EnterLoop(st), r) && forall x :: Beyond(EnterLoop(st), x) == st.depth + 1
  {
    hide Covered;
  }

  lemma {:induction false} LoopCount(b: Stmt, st: State, base: nat, fuel: nat, r: seq<nat>, ret: seq<Code>, brk: seq<Code>)
    requires Set(Loop(b), st, base, fuel) && Accounts(st, base, r, ret, brk)
    ensures var s := Loop(b); var o := Gen(s, st, fuel);
      && base <= |o.st.stack| && !Exits(s)
      && Counted(Runs(o.code), Runs(Ref(s, ret, brk)), Safe(s, ReturnPending(r), BreakPending(st, r)), o.st.stack[base..], r, st.depth + 1)
    decreases fuel, Size(Loop(b)), -1
  {
    hide Spares, Set, Accounts, Lacks, Sum, Runs, HasReturn, HasBreak, Exits, Space, Full;
    var s := Loop(b);
    LoopSet(b, st, base, fuel);
    LoopAccounts(st, base, r, ret, brk);
    LooseParts(s);
    var inner := EnterLoop(st);
    GenCount(b, inner, base, fuel, r, ret, []);
    OwnAfter(b, inner, base, fuel);
    var o := Gen(b, inner, fuel);
    RunsOne(Repeat(o.code));
    RunsOne(Repeat(Ref(b, ret, [])));
    AccountsLength(st, base, r, ret, brk);
    var own := o.st.stack[base..];
    if Runs(o.code) == Runs(Ref(b, ret, [])) && !Lacks(own, r, st.depth + 1) {
      if HasReturn(b) && Sum(r, 0) > 0 { ExitLacks(b, inner, base, fuel, r); }
    }
  }

  lemma ClauseSet(cs: seq<Stmt>, st: State, base: nat, fuel: nat)
    requires Set(Switch(cs), st, base, fuel) && cs != []
    ensures Set(cs[0], EnterLoop(st), base, fuel) && cs[0].Block?
    ensures Set(Switch(cs[1..]), Gen(cs[0], EnterLoop(st), fuel).st.(loops := st.loops), base, fuel)
  {
    hide Gen, Safe, SafeClauses, Placed, WellFormed, Nesting, EachPlaced, EachFormed, ListFormed, ListReturns, ListBreaks, HasReturn, HasBreak, Space, Allowed, Inv, Fuelled, Room, NoDead, Telling, Steps;
    var s, s1 := Switch(cs), Switch(cs[1..]);
    SetParts(s, st, base, fuel);
    Parts(s);
    Parts(s1);
    SafeParts(s, true, true);
    SafeParts(s1, true, true);
    LooseParts(s);
    LooseParts(s1);
    ListHead(cs);
    EachHead(cs);
    NestingHead(cs);
    EachRest(cs);
    Entered(HasBreak(s), HasReturn(s), ListBreaks(cs), st, base, fuel);
    Weaken(ListBreaks(cs), HasReturn(s), HasBreak(cs[0]), HasReturn(cs[0]), EnterLoop(st), base, fuel);
    RoomSame(st, EnterLoop(st), base, Space(s));
    MakeSet(cs[0], EnterLoop(st), base, fuel, Space(s));
    OwnAfter(cs[0], EnterLoop(st), base, fuel);
    var st1 := Gen(cs[0], EnterLoop(st), fuel).st;
    var st2 := st1.(loops := st.loops);
    AllowedInv(HasBreak(s), HasReturn(s), st, base, fuel);
    LeftLoop(st, st1, base, fuel);
    Carry(HasBreak(s), HasReturn(s), st, st2, base, fuel);
    Weaken(HasBreak(s), HasReturn(s), HasBreak(s1), HasReturn(s1), st2, base, fuel);
    RoomPrefix(st, st2, base, Space(s), Space(s1));
    MakeSet(s1, st2, base, fuel, Space(s1));
  }

  lemma RoomSame(st: State, st1: State, base: nat, n: nat)
    requires Room(st, base, n) && st1.stack == st.stack
    ensures Room(st1, base, n)
  {
  }

  lemma EachRest(cs: seq<Stmt>)
    requires cs != []
    ensures NoDeadEach(cs) ==> NoDead(cs[0]) && NoDeadEach(cs[1..])
    ensures TellingAll(cs) ==> Telling(cs[0]) && TellingAll(cs[1..])
    ensures SpaceEach(cs) == Max(Space(cs[0]), SpaceEach(cs[1..]))
  {
  }

  lemma {:induction false} SwitchCount(cs: seq<Stmt>, st: State, base: nat, fuel: nat, r: seq<nat>, ret: seq<Code>, brk: seq<Code>)
    requires Set(Switch(cs), st, base, fuel) && Accounts(st, base, r, ret, brk)
    ensures var s := Switch(cs); var o := Gen(s, st, fuel);
      && base <= |o.st.stack| && !Exits(s)
      && Counted(Runs(o.code), Runs(Ref(s, ret, brk)), Safe(s, ReturnPending(r), BreakPending(st, r)), o.st.stack[base..], r, st.depth + 1)
    decreases fuel, Size(Switch(cs)), -1
  {
    hide Set, Accounts, Lacks, Sum, Runs, HasReturn, HasBreak, Exits, Space, Full, GenClauses, RefClauses, SafeClauses, RunsEach;
    var s := Switch(cs);
    LooseParts(s);
    OwnAfter(s, st, base, fuel);
    ClausesCount(cs, st, base, fuel, r, ret, brk);
    RunsOne(Choose(GenClauses(cs, EnterLoop(st), fuel).code));
    RunsOne(Choose(RefClauses(cs, ret)));
  }

  lemma {:induction false} ClausesCount(cs: seq<Stmt>, st: State, base: nat, fuel: nat, r: seq<nat>, ret: seq<Code>, brk: seq<Code>)
    requires Set(Switch(cs), st, base, fuel) && Accounts(st, base, r, ret, brk)
    ensures var o := GenClauses(cs, EnterLoop(st), fuel);
      && base <= |o.st.stack|
      && Counted(RunsEach(o.code), RunsEach(RefClauses(cs, ret)), SafeClauses(cs, ReturnPending(r)), o.st.stack[base..], r, st.depth + 1)
      && exists n: nat :: ShorterBy(o.st.stack[base..], st.stack[base..], n)
    decreases fuel, SizeAll(cs), 1
  {
    hide Set, Accounts, Lacks, Sum, Runs, HasReturn, HasBreak, Exits, Space, Full, Gen, Safe, SafeClauses, Ref, GenClauses, RefClauses, RunsEach;
    SetBase(Switch(cs), st, base, fuel);
    if cs == [] {
      NoClauses(EnterLoop(st), fuel, ret, ReturnPending(r));
      assert ShorterBy(st.stack[base..], st.stack[base..], |st.stack[base..]|);
    } else {
      var inner := EnterLoop(st);
      ClauseSet(cs, st, base, fuel);
      LoopAccounts(st, base, r, ret, brk);
      GenCount(cs[0], inner, base, fuel, r, ret, []);
      OwnAfter(cs[0], inner, base, fuel);
      var o1 := Gen(cs[0], inner, fuel);
      AccountsAfter(cs[0], inner, base, fuel, r, ret, []);
      var st2 := o1.st.(loops := st.loops);
      BackAccounts(st, o1.st, base, r, ret, brk);
      ClausesCount(cs[1..], st2, base, fuel, r, ret, brk);
      assert EnterLoop(st2) == o1.st;
      var o2 := GenClauses(cs[1..], o1.st, fuel);
      FirstClause(cs, inner, fuel, ret);
      AccountsLength(st, base, r, ret, brk);
      var own1, own := o1.st.stack[base..], o2.st.stack[base..];
      var n: nat :| ShorterBy(own, own1, n);
      Shorter2(own, own1, st.stack[base..], n, |own1|);
      if HasReturn(cs[0]) && Sum(r, 0) > 0 { ExitLacks(cs[0], inner, base, fuel, r); }
      ClausesJudged(cs, r, st.depth + 1, own1, own, n);
    }
  }

  lemma NoClauses(st: State, fuel: nat, ret: seq<Code>, rp: bool)
    ensures GenClauses([], st, fuel).st == st && RunsEach(GenClauses([], st, fuel).code) == RunsEach(RefClauses([], ret)) && SafeClauses([], rp)
  {
  }

  lemma FirstClause(cs: seq<Stmt>, st: State, fuel: nat, ret: seq<Code>)
    requires cs != []
    ensures var o1 := Gen(cs[0], st, fuel); var o2 := GenClauses(cs[1..], o1.st, fuel); var o := GenClauses(cs, st, fuel);
      o.st == o2.st && RunsEach(o.code) == Runs(o1.code) + RunsEach(o2.code)
    ensures RunsEach(RefClauses(cs, ret)) == Runs(Ref(cs[0], ret, [])) + RunsEach(RefClauses(cs[1..], ret))
  {
    hide Gen, Ref, Runs;
    var o1 := Gen(cs[0], st, fuel);
    var o2 := GenClauses(cs[1..], o1.st, fuel);
    assert ([Arm(o1.code)] + o2.code)[1..] == o2.code;
    assert ([Arm(Ref(cs[0], ret, []))] + RefClauses(cs[1..], ret))[1..] == RefClauses(cs[1..], ret);
  }

  lemma ClausesJudged(cs: seq<Stmt>, r: seq<nat>, m: nat, own1: seq<Entry>, own: seq<Entry>, n: nat)
    requires cs != [] && cs[0].Block? && ShorterBy(own, own1, n)
    requires HasReturn(cs[0]) && Sum(r, 0) > 0 ==> Lacks(own1, r, m)
    ensures (Safe(cs[0], ReturnPending(r), false) || Lacks(own1, r, m)) && (SafeClauses(cs[1..], ReturnPending(r)) || Lacks(own, r, m))
      ==> SafeClauses(cs, ReturnPending(r)) || Lacks(own, r, m)
  {
    hide Lacks, Safe, HasReturn, Sum;
    if Lacks(own1, r, m) { LacksPrefix(own1, n, r, m, m); }
  }

  lemma SetBase(s: Stmt, st: State, base: nat, fuel: nat)
    requires Set(s, st, base, fuel)
    ensures base <= |st.stack| && Inv(st)
  {
  }

  ghost predicate ShorterBy(a: seq<Entry>, b: seq<Entry>, n: nat) { n <= |b| && a == b[..n] }

  lemma Shorter2(a: seq<Entry>, b: seq<Entry>, c: seq<Entry>, n: nat, k: nat)
    requires ShorterBy(a, b, n) && ShorterBy(b, c, k)
    ensures ShorterBy(a, c, n)
  {
    assert c[..k][..n] == c[..n];
  }

  lemma BackAccounts(st: State, st1: State, base: nat, r: seq<nat>, ret: seq<Code>, brk: seq<Code>)
    requires Accounts(st, base, r, ret, brk) && Accounts(st1, base, r, ret, []) && st1.depth == st.depth
    ensures Accounts(st1.(loops := st.loops), base, r, ret, brk)
  {
    hide Covered, Sum, Runs;
  }

  // ---- blocks ----

  lemma BlockSet(b: seq<Stmt>, st: State, base: nat, fuel: nat)
    requires Set(Block(b), st, base, fuel)
    ensures ListSet(b, EnterBlock(st), base, fuel) && Inv(st) && base <= |st.stack|
  {
    hide ListSet, Safe, SafeAll, Placed, WellFormed, Nesting, NestingAll, ListFormed, ListPlaced, ListReturns, ListBreaks, HasReturn, HasBreak, Space, SpaceAll, Allowed, Room, Inv, Fuelled, NoDead, NoDeadAll, Telling, TellingAll;
    var s := Block(b);
    SetParts(s, st, base, fuel);
    Parts(s);
    SafeParts(s, true, true);
    LooseParts(s);
    Entered(ListBreaks(b), ListReturns(b), ListBreaks(b), st, base, fuel);
    RoomSame(st, EnterBlock(st), base, Space(s));
    MakeListSet(b, EnterBlock(st), base, fuel, Space(s));
  }

  lemma BlockAccounts(st: State, base: nat, r: seq<nat>, ret: seq<Code>, brk: seq<Code>)
    requires Accounts(st, base, r, ret, brk) && Inv(st)
    ensures Accounts(EnterBlock(st), base, r + [0], ret, brk) && Below(EnterBlock(st))
    ensures ReturnPending(r + [0]) == ReturnPending(r) && BreakPending(EnterBlock(st), r + [0]) == BreakPending(st, r)
    ensures forall j | 0 <= j < |st.stack| :: !Match(At(st.depth + 1), st.stack[j])
  {
    hide WorthAt, Sum;
    SumAppendZero(r, 0);
    if st.loops != [] { SumAppendZero(r, Top(st.loops) + 1); }
    WorthNoneAt(st.stack[base..], st.depth + 1);
  }

  /** What is emitted for a list and the end of its scope. */
  function ScopeRuns(b: seq<Stmt>, st: State, fuel: nat): nat {
    var o := GenAll(b, st, fuel);
    Runs(o.code) + Runs(Emit(o.st, At(st.depth), fuel).code)
  }

  function Expected(b: seq<Stmt>, r: seq<nat>, depth: nat, ret: seq<Code>, brk: seq<Code>): nat
    requires depth < |r|
  {
    Runs(RefAll(b, ret, brk)) + if ExitsAll(b) then 0 else r[depth]
  }

  function BeyondList(st: State, exits: bool): nat { if exits then ExitFrom(st) else st.depth }

  lemma {:induction false} BlockCount(b: seq<Stmt>, st: State, base: nat, fuel: nat, r: seq<nat>, ret: seq<Code>, brk: seq<Code>)
    requires Set(Block(b), st, base, fuel) && Accounts(st, base, r, ret, brk)
    ensures var s := Block(b); var o := Gen(s, st, fuel);
      && base <= |o.st.stack|
      && Counted(Runs(o.code), Runs(Ref(s, ret, brk)), Safe(s, ReturnPending(r), BreakPending(st, r)), o.st.stack[base..], r, Beyond(st, Exits(s)))
      && (Exits(s) && Runs(o.code) == Runs(Ref(s, ret, brk)) ==> Full(st.stack[base..], r, ExitFrom(st)))
    decreases fuel, Size(Block(b)), -1
  {
    hide Set, ListSet, Accounts, Lacks, Sum, Runs, HasReturn, HasBreak, Space, Full, GenAll, Emit, RefAll, SafeAll, ExitsAll, WorthAt, ReturnPending, BreakPending, Left;
    var s := Block(b);
    var inner := EnterBlock(st);
    SetBase(s, st, base, fuel);
    BlockSet(b, st, base, fuel);
    BlockAccounts(st, base, r, ret, brk);
    AccountsLength(st, base, r, ret, brk);
    LooseParts(s);
    OwnAfter(s, st, base, fuel);
    ListCount(b, inner, base, fuel, r + [0], ret, brk);
    var o1 := GenAll(b, inner, fuel);
    var o2 := Emit(o1.st, At(inner.depth), fuel);
    RunsPlus(o1.code, o2.code);
    BlockEnds(b, st, base, fuel);
    if Lacks(o1.st.stack[base..], r + [0], BeyondList(inner, ExitsAll(b))) {
      LacksKept(o1.st.stack[base..], |o2.st.stack| - base, r, BeyondList(inner, ExitsAll(b)));
    }
    if Full(st.stack[base..], r + [0], ExitFrom(inner)) { FullShort(st.stack[base..], r, ExitFrom(st)); }
  }

  lemma BlockEnds(b: seq<Stmt>, st: State, base: nat, fuel: nat)
    requires Set(Block(b), st, base, fuel)
    ensures var o1 := GenAll(b, EnterBlock(st), fuel); var o2 := Emit(o1.st, At(st.depth + 1), fuel);
      base <= |o2.st.stack| <= |o1.st.stack| && o2.st.stack[base..] == o1.st.stack[base..][..|o2.st.stack| - base]
  {
    hide Gen, GenAll, Emit, Placed, WellFormed, Nesting, HasReturn, HasBreak, Allowed, Room, NoDead, Telling, Cut, Left;
    BlockSet(b, st, base, fuel);
    ListSetParts(b, EnterBlock(st), base, fuel);
    AllSteps(b, EnterBlock(st), base, fuel);
    var o1 := GenAll(b, EnterBlock(st), fuel);
    StepsInv(EnterBlock(st), o1.st, base, fuel);
    LeftBlock(st, o1.st, base, fuel);
    EmitSteps(o1.st, At(st.depth + 1), base, fuel);
    var n := Cut(o1.st.stack, At(st.depth + 1));
    KeepIsPrefix(o1.st, At(st.depth + 1));
    StepsInv(o1.st, Emit(o1.st, At(st.depth + 1), fuel).st, base, fuel);
    assert o1.st.stack[..n][base..] == o1.st.stack[base..][..n - base];
  }

  lemma LacksKept(stack: seq<Entry>, n: nat, r: seq<nat>, m: nat)
    requires Lacks(stack, r + [0], m) && n <= |stack|
    ensures Lacks(stack[..n], r, m)
  {
    hide WorthAt;
    var d: nat :| d < m && d < |r + [0]| && WorthAt(stack, d) < (r + [0])[d];
    WorthPrefix(stack, n, d);
  }

  lemma FullShort(stack: seq<Entry>, r: seq<nat>, m: nat)
    requires Full(stack, r + [0], m)
    ensures Full(stack, r, m)
  {
    hide WorthAt;
    forall k: nat | m <= k < |r| ensures WorthAt(stack, k) == r[k] { assert (r + [0])[k] == r[k]; }
  }

  // ---- lists ----

  /** With the defers of its scope, a list emits no more than the reference; as much only if nothing of its own scope was
      missing at the start, and it is safe or something outside is missing afterwards. */
  lemma {:induction false} ListCount(b: seq<Stmt>, st: State, base: nat, fuel: nat, r: seq<nat>, ret: seq<Code>, brk: seq<Code>)
    requires ListSet(b, st, base, fuel) && Accounts(st, base, r, ret, brk) && Below(st)
    requires forall j | 0 <= j < base :: !Match(At(st.depth), st.stack[j])
    ensures |r| == st.depth + 1 && base <= |GenAll(b, st, fuel).st.stack|
    ensures var own := GenAll(b, st, fuel).st.stack[base..];
      && Counted(ScopeRuns(b, st, fuel), Expected(b, r, st.depth, ret, brk), SafeAll(b, ReturnPending(r), BreakPending(st, r)), own, r, BeyondList(st, ExitsAll(b)))
      && (ScopeRuns(b, st, fuel) == Expected(b, r, st.depth, ret, brk) ==>
           WorthAt(st.stack[base..], st.depth) == r[st.depth] && (ExitsAll(b) ==> Full(st.stack[base..], r, ExitFrom(st))))
    decreases fuel, SizeAll(b), 6
  {
    hide ListSet, Accounts, Lacks, Sum, Runs, HasReturn, HasBreak, Space, Full, Gen, GenAll, Emit, Ref, RefAll, Safe, SafeAll, Exits, ExitsAll, WorthAt, ReturnPending, BreakPending, Match, Below;
    AccountsCovered(st, base, r, ret, brk);
    ListSetParts(b, st, base, fuel);
    AllSteps(b, st, base, fuel);
    StepsInv(st, GenAll(b, st, fuel).st, base, fuel);
    if b == [] {
      EmptyCount(st, base, fuel, r, ret, brk);
    } else if b[0].Defer? {
      var st1 := st.(stack := st.stack + [Entry(b[0].deferred, st.depth)]);
      DeferSet(b, st, base, fuel);
      var d := b[0].deferred;
      var r1 := r[st.depth := r[st.depth] + Weight(d)];
      PushAccounts(st, st1, d, base, r, ret, brk);
      BelowPush(st, st1, d, base);
      ListCount(b[1..], st1, base, fuel, r1, Ref(d, [], []) + ret, Ref(d, [], []) + brk);
      DeferCounted(b, st, st1, base, fuel, r, ret, brk);
    } else {
      HeadSet(b, st, base, fuel);
      GenCount(b[0], st, base, fuel, r, ret, brk);
      if Exits(b[0]) {
        ExitCounted(b, st, base, fuel, r, ret, brk);
      } else {
        var st1 := Gen(b[0], st, fuel).st;
        OwnAfter(b[0], st, base, fuel);
        AccountsAfter(b[0], st, base, fuel, r, ret, brk);
        BelowSame(st, st1);
        SameFlags(st, st1, r);
        assert ShorterBy(st1.stack[base..], st.stack[base..], Left(HasReturn(b[0]), HasBreak(b[0]), st) - base);
        ListCount(b[1..], st1, base, fuel, r, ret, brk);
        HeadCounted(b, st, st1, base, fuel, r, ret, brk);
      }
    }
  }

  lemma AccountsCovered(st: State, base: nat, r: seq<nat>, ret: seq<Code>, brk: seq<Code>)
    requires Accounts(st, base, r, ret, brk)
    ensures |r| == st.depth + 1 && base <= |st.stack| && Covered(st.stack[base..], r)
  {
  }

  lemma SameFlags(st: State, st1: State, r: seq<nat>)
    requires st1.loops == st.loops && st1.depth == st.depth
    ensures BreakPending(st1, r) == BreakPending(st, r) && forall x :: BeyondList(st1, x) == BeyondList(st, x)
  {
  }

  lemma BelowSame(st: State, st1: State)
    requires Below(st) && st1.loops == st.loops && st1.depth == st.depth
    ensures Below(st1) && ExitFrom(st1) == ExitFrom(st) <= st.depth
  {
  }

  /** The end of a scope emits what its own entries are worth at most. */
  lemma {:induction false} ScopeEnd(st: State, base: nat, fuel: nat)
    requires Inv(st) && Fuelled(st.stack, base, fuel) && base <= |st.stack| && Room(st, base, 0)
    requires forall j | 0 <= j < base :: !Match(At(st.depth), st.stack[j])
    ensures Runs(Emit(st, At(st.depth), fuel).code) <= WorthAt(st.stack[base..], st.depth)
    decreases fuel, 0, 2
  {
    hide Emit, Room, Runs, WorthFrom, WorthAt, Fuelled;
    EmitCount(st, At(st.depth), st.depth, base, fuel);
    WorthSplit(st.stack[base..], st.depth);
    WorthNone(st.stack[base..], st.depth + 1);
  }

  lemma {:induction false} EmptyCount(st: State, base: nat, fuel: nat, r: seq<nat>, ret: seq<Code>, brk: seq<Code>)
    requires ListSet([], st, base, fuel) && Accounts(st, base, r, ret, brk)
    requires forall j | 0 <= j < base :: !Match(At(st.depth), st.stack[j])
    ensures |r| == st.depth + 1 && GenAll([], st, fuel).st == st && !ExitsAll([]) && SafeAll([], ReturnPending(r), BreakPending(st, r))
    ensures ScopeRuns([], st, fuel) <= Expected([], r, st.depth, ret, brk)
    ensures ScopeRuns([], st, fuel) == Expected([], r, st.depth, ret, brk) ==> WorthAt(st.stack[base..], st.depth) == r[st.depth]
    decreases fuel, 0, 3
  {
    hide Emit, Room, WorthAt, Fuelled, Inv, Match;
    ListSetParts([], st, base, fuel);
    ScopeEnd(st, base, fuel);
  }

  lemma DeferSet(b: seq<Stmt>, st: State, base: nat, fuel: nat)
    requires ListSet(b, st, base, fuel) && b != [] && b[0].Defer?
    ensures var st1 := st.(stack := st.stack + [Entry(b[0].deferred, st.depth)]);
      |st.stack| < MAX_DEFERS && ListSet(b[1..], st1, base, fuel) && Fine(b[0].deferred) && Weight(b[0].deferred) > 0
  {
    hide ListSet, Safe, Placed, WellFormed, Nesting, ListFormed, ListPlaced, ListReturns, ListBreaks, HasReturn, HasBreak, Space, Allowed, Steps, Inv, Fuelled, Room, Deferrable, SpaceAll, NestingAll, NoDead, Telling, Fine, Weight, Ref;
    var d := b[0].deferred;
    var st1 := st.(stack := st.stack + [Entry(d, st.depth)]);
    ListSetParts(b, st, base, fuel);
    ListHead(b);
    Parts(b[0]);
    SafeParts(b[0], true, true);
    LooseParts(b[0]);
    NestingHead(b);
    ListLoose(b);
    FineOne(d);
    Pushed(st, d, base, fuel);
    Carry(ListBreaks(b), ListReturns(b), st, st1, base, fuel);
    Weaken(ListBreaks(b), ListReturns(b), ListBreaks(b[1..]), ListReturns(b[1..]), st1, base, fuel);
    RoomPush(st, st1, d, base, SpaceAll(b), SpaceAll(b[1..]));
    MakeListSet(b[1..], st1, base, fuel, SpaceAll(b[1..]));
  }

  lemma FineOne(d: Stmt)
    ensures Fine(d) <==> !d.Defer? && Placed(d) && Deferrable(d) && NoDead(d) && Telling(d) && Weight(d) > 0
  {
  }

  lemma ListLoose(b: seq<Stmt>)
    requires b != []
    ensures NoDeadAll(b) ==> NoDead(b[0]) && (Exits(b[0]) ==> b[1..] == []) && NoDeadAll(b[1..])
    ensures TellingAll(b) ==> Telling(b[0]) && TellingAll(b[1..])
  {
  }

  lemma RoomPush(st: State, st1: State, d: Stmt, base: nat, m: nat, n: nat)
    requires Room(st, base, m) && Fine(d) && m == 1 + Space(d) + n && st1.stack == st.stack + [Entry(d, st.depth)]
    ensures Room(st1, base, n) && |st.stack| < MAX_DEFERS
  {
    hide Fine, Space;
  }

  lemma BelowPush(st: State, st1: State, d: Stmt, base: nat)
    requires Below(st) && st1 == st.(stack := st.stack + [Entry(d, st.depth)]) && base <= |st.stack|
    requires forall j | 0 <= j < base :: !Match(At(st.depth), st.stack[j])
    ensures Below(st1) && ExitFrom(st1) == ExitFrom(st) <= st.depth && forall j | 0 <= j < base :: !Match(At(st1.depth), st1.stack[j])
  {
  }

  lemma PushAccounts(st: State, st1: State, d: Stmt, base: nat, r: seq<nat>, ret: seq<Code>, brk: seq<Code>)
    requires Accounts(st, base, r, ret, brk) && Below(st) && st1 == st.(stack := st.stack + [Entry(d, st.depth)]) && Weight(d) > 0
    ensures |r| == st.depth + 1
    ensures Accounts(st1, base, r[st.depth := r[st.depth] + Weight(d)], Ref(d, [], []) + ret, Ref(d, [], []) + brk)
    ensures var r1 := r[st.depth := r[st.depth] + Weight(d)]; ReturnPending(r1) && BreakPending(st1, r1)
    ensures forall k: nat :: WorthAt(st1.stack[base..], k) == WorthAt(st.stack[base..], k) + if k == st.depth then Worth(Entry(d, st.depth)) else 0
  {
    hide WorthAt, Sum, Runs, Ref, Worth;
    var e := Entry(d, st.depth);
    var own := st.stack[base..];
    var r1 := r[st.depth := r[st.depth] + Weight(d)];
    assert st1.stack[base..] == own + [e];
    forall k: nat ensures WorthAt(own + [e], k) == WorthAt(own, k) + if k == st.depth then Worth(e) else 0 { WorthPush(own, e, k); }
    WorthLight(e);
    RunsPlus(Ref(d, [], []), ret);
    RunsPlus(Ref(d, [], []), brk);
    SumUpdate(r, st.depth, Weight(d), 0);
    if st.loops != [] { SumUpdate(r, st.depth, Weight(d), Top(st.loops) + 1); }
  }

  lemma WorthLight(e: Entry)
    ensures Worth(e) <= Weight(e.node)
    ensures Worth(e) == Weight(e.node) && Weight(e.node) > 0 ==> Safe(e.node, true, true)
  {
  }

  lemma DeferCounted(b: seq<Stmt>, st: State, st1: State, base: nat, fuel: nat, r: seq<nat>, ret: seq<Code>, brk: seq<Code>)
    requires b != [] && b[0].Defer? && |st.stack| < MAX_DEFERS && st1 == st.(stack := st.stack + [Entry(b[0].deferred, st.depth)])
    requires |r| == st.depth + 1 && base <= |st.stack| && base <= |GenAll(b[1..], st1, fuel).st.stack| && ExitFrom(st) <= st.depth
    requires Weight(b[0].deferred) > 0 && !b[0].deferred.Defer? && Covered(st.stack[base..], r)
    requires forall k: nat :: WorthAt(st1.stack[base..], k) == WorthAt(st.stack[base..], k) + if k == st.depth then Worth(Entry(b[0].deferred, st.depth)) else 0
    requires var d := b[0].deferred; var r1 := r[st.depth := r[st.depth] + Weight(d)]; var ret1 := Ref(d, [], []) + ret; var brk1 := Ref(d, [], []) + brk;
      var own := GenAll(b[1..], st1, fuel).st.stack[base..];
      && ReturnPending(r1) && BreakPending(st1, r1)
      && Counted(ScopeRuns(b[1..], st1, fuel), Expected(b[1..], r1, st.depth, ret1, brk1), SafeAll(b[1..], true, true), own, r1, BeyondList(st1, ExitsAll(b[1..])))
      && (ScopeRuns(b[1..], st1, fuel) == Expected(b[1..], r1, st.depth, ret1, brk1) ==>
           WorthAt(st1.stack[base..], st.depth) == r1[st.depth] && (ExitsAll(b[1..]) ==> Full(st1.stack[base..], r1, ExitFrom(st1))))
    ensures GenAll(b, st, fuel).st == GenAll(b[1..], st1, fuel).st
    ensures var own := GenAll(b, st, fuel).st.stack[base..];
      && Counted(ScopeRuns(b, st, fuel), Expected(b, r, st.depth, ret, brk), SafeAll(b, ReturnPending(r), BreakPending(st, r)), own, r, BeyondList(st, ExitsAll(b)))
      && (ScopeRuns(b, st, fuel) == Expected(b, r, st.depth, ret, brk) ==>
           WorthAt(st.stack[base..], st.depth) == r[st.depth] && (ExitsAll(b) ==> Full(st.stack[base..], r, ExitFrom(st))))
  {
    hide Lacks, Full, Gen, GenAll, Emit, Ref, RefAll, Safe, SafeAll, Exits, ExitsAll, WorthAt, Worth, Runs, ReturnPending, BreakPending;
    var d := b[0].deferred;
    var e := Entry(d, st.depth);
    var r1 := r[st.depth := r[st.depth] + Weight(d)];
    GenDefer(b, st, fuel);
    DeferHead(b, ret, brk, ReturnPending(r), BreakPending(st, r));
    RunsPlus(RefAll(b[1..], Ref(d, [], []) + ret, Ref(d, [], []) + brk), Ref(d, [], []));
    RunsPlus(RefAll(b[1..], Ref(d, [], []) + ret, Ref(d, [], []) + brk), []);
    RunsEmpty();
    WorthLight(e);
    var own := GenAll(b, st, fuel).st.stack[base..];
    LacksSame(own, r, r1, st.depth, BeyondList(st, ExitsAll(b)));
    assert ScopeRuns(b, st, fuel) == ScopeRuns(b[1..], st1, fuel);
    assert Expected(b, r, st.depth, ret, brk) == Expected(b[1..], r1, st.depth, Ref(d, [], []) + ret, Ref(d, [], []) + brk);
    if ScopeRuns(b, st, fuel) == Expected(b, r, st.depth, ret, brk) {
      assert WorthAt(st.stack[base..], st.depth) <= r[st.depth];
      assert Safe(d, true, true);
      if ExitsAll(b) { FullLess(st.stack[base..], st1.stack[base..], r, r1, st.depth, ExitFrom(st)); }
    }
  }

  lemma LacksSame(stack: seq<Entry>, r: seq<nat>, r1: seq<nat>, depth: nat, m: nat)
    requires |r| == |r1| == depth + 1 && m <= depth && forall k | 0 <= k < depth :: r[k] == r1[k]
    ensures Lacks(stack, r1, m) == Lacks(stack, r, m)
  {
    hide WorthAt;
  }

  lemma FullLess(own: seq<Entry>, own1: seq<Entry>, r: seq<nat>, r1: seq<nat>, depth: nat, m: nat)
    requires |r| == |r1| == depth + 1 && Full(own1, r1, m) && WorthAt(own, depth) == r[depth]
    requires forall k | 0 <= k < depth :: r[k] == r1[k] && WorthAt(own1, k) == WorthAt(own, k)
    ensures Full(own, r, m)
  {
    hide WorthAt;
    forall k: nat | m <= k < |r| ensures WorthAt(own, k) == r[k] {
      if k < depth { assert WorthAt(own1, k) == r1[k]; }
    }
  }

  lemma DeferHead(b: seq<Stmt>, ret: seq<Code>, brk: seq<Code>, rp: bool, bp: bool)
    requires b != [] && b[0].Defer?
    ensures ExitsAll(b) == ExitsAll(b[1..])
    ensures var code := Ref(b[0].deferred, [], []);
      RefAll(b, ret, brk) == RefAll(b[1..], code + ret, code + brk) + if ExitsAll(b[1..]) then [] else code
    ensures Safe(b[0].deferred, true, true) && !b[0].deferred.Defer? && SafeAll(b[1..], true, true) ==> SafeAll(b, rp, bp)
  {
    ExitsHead(b);
    DeferNoExit(b[0]);
  }

  lemma HeadSet(b: seq<Stmt>, st: State, base: nat, fuel: nat)
    requires ListSet(b, st, base, fuel) && b != [] && !b[0].Defer?
    ensures Set(b[0], st, base, fuel) && (Exits(b[0]) ==> b[1..] == []) && ListSet(b[1..], Gen(b[0], st, fuel).st, base, fuel)
  {
    hide ListSet, Set, Safe, Placed, WellFormed, Nesting, ListFormed, ListPlaced, ListReturns, ListBreaks, HasReturn, HasBreak, Space, Allowed, Steps, Inv, Fuelled, Room, SpaceAll, NestingAll, NoDead, Telling, Exits, Gen, NoDeadAll, TellingAll;
    ListSetParts(b, st, base, fuel);
    ListHead(b);
    NestingHead(b);
    ListLoose(b);
    Weaken(ListBreaks(b), ListReturns(b), HasBreak(b[0]), HasReturn(b[0]), st, base, fuel);
    MakeSet(b[0], st, base, fuel, SpaceAll(b));
    OwnAfter(b[0], st, base, fuel);
    var st1 := Gen(b[0], st, fuel).st;
    Carry(ListBreaks(b), ListReturns(b), st, st1, base, fuel);
    Weaken(ListBreaks(b), ListReturns(b), ListBreaks(b[1..]), ListReturns(b[1..]), st1, base, fuel);
    RoomPrefix(st, st1, base, SpaceAll(b), SpaceAll(b[1..]));
    MakeListSet(b[1..], st1, base, fuel, SpaceAll(b[1..]));
  }

  lemma PlainHead(b: seq<Stmt>, st: State, fuel: nat, ret: seq<Code>, brk: seq<Code>)
    requires b != [] && !b[0].Defer?
    ensures var o1 := Gen(b[0], st, fuel); var o2 := GenAll(b[1..], o1.st, fuel);
      GenAll(b, st, fuel).code == o1.code + o2.code && GenAll(b, st, fuel).st == o2.st
    ensures RefAll(b, ret, brk) == Ref(b[0], ret, brk) + RefAll(b[1..], ret, brk)
    ensures ExitsAll(b) <==> Exits(b[0]) || ExitsAll(b[1..])
  {
    ExitsHead(b);
  }

  lemma SafeCons(b: seq<Stmt>, rp: bool, bp: bool)
    requires b != [] && !b[0].Defer? && Safe(b[0], rp, bp) && (Exits(b[0]) ==> b[1..] == []) && SafeAll(b[1..], rp, bp)
    ensures SafeAll(b, rp, bp)
  {
  }

  /** A list that ends in an exit. */
  lemma {:induction false} ExitCounted(b: seq<Stmt>, st: State, base: nat, fuel: nat, r: seq<nat>, ret: seq<Code>, brk: seq<Code>)
    requires ListSet(b, st, base, fuel) && b != [] && !b[0].Defer? && Exits(b[0]) && b[1..] == [] && Set(b[0], st, base, fuel)
    requires |r| == st.depth + 1 && Below(st) && base <= |st.stack| && base <= |Gen(b[0], st, fuel).st.stack|
    requires forall j | 0 <= j < base :: !Match(At(st.depth), st.stack[j])
    requires var o := Gen(b[0], st, fuel);
      && Counted(Runs(o.code), Runs(Ref(b[0], ret, brk)), Safe(b[0], ReturnPending(r), BreakPending(st, r)), o.st.stack[base..], r, Beyond(st, true))
      && (Runs(o.code) == Runs(Ref(b[0], ret, brk)) ==> Full(st.stack[base..], r, ExitFrom(st)))
    ensures ExitsAll(b) && GenAll(b, st, fuel).st == Gen(b[0], st, fuel).st
    ensures var own := GenAll(b, st, fuel).st.stack[base..];
      && Counted(ScopeRuns(b, st, fuel), Expected(b, r, st.depth, ret, brk), SafeAll(b, ReturnPending(r), BreakPending(st, r)), own, r, BeyondList(st, true))
      && (ScopeRuns(b, st, fuel) == Expected(b, r, st.depth, ret, brk) ==>
           WorthAt(st.stack[base..], st.depth) == r[st.depth] && Full(st.stack[base..], r, ExitFrom(st)))
    decreases fuel, 0, 4
  {
    hide ListSet, Lacks, Gen, Emit, Ref, Safe, Exits, WorthAt, Runs, ReturnPending, BreakPending, Set, ExitsAll, HasReturn, HasBreak, Left, Room, Inv, Fuelled;
    PlainHead(b, st, fuel, ret, brk);
    OwnAfter(b[0], st, base, fuel);
    var st1 := Gen(b[0], st, fuel).st;
    assert GenAll([], st1, fuel).st == st1 && GenAll([], st1, fuel).code == [] && RefAll([], ret, brk) == [];
    RunsPlus(Gen(b[0], st, fuel).code, []);
    RunsPlus(Ref(b[0], ret, brk), []);
    RunsEmpty();
    AfterExit(b, st, base, fuel);
    ScopeEnd(st1, base, fuel);
    assert SafeAll([], ReturnPending(r), BreakPending(st, r));
    if Safe(b[0], ReturnPending(r), BreakPending(st, r)) { SafeCons(b, ReturnPending(r), BreakPending(st, r)); }
    BelowSame(st, st);
    if Full(st.stack[base..], r, ExitFrom(st)) { assert WorthAt(st.stack[base..], st.depth) == r[st.depth]; }
  }

  lemma AfterExit(b: seq<Stmt>, st: State, base: nat, fuel: nat)
    requires ListSet(b, st, base, fuel) && b != [] && !b[0].Defer? && Exits(b[0]) && Set(b[0], st, base, fuel) && Below(st)
    requires base <= |Gen(b[0], st, fuel).st.stack|
    requires forall j | 0 <= j < base :: !Match(At(st.depth), st.stack[j])
    ensures var st1 := Gen(b[0], st, fuel).st;
      && Inv(st1) && Fuelled(st1.stack, base, fuel) && Room(st1, base, 0) && st1.depth == st.depth
      && WorthAt(st1.stack[base..], st.depth) == 0 && forall j | 0 <= j < base :: !Match(At(st1.depth), st1.stack[j])
  {
    hide Gen, WorthAt, HasReturn, HasBreak, Exits, Fine, Cut, Set, ListSet;
    OwnAfter(b[0], st, base, fuel);
    var st1 := Gen(b[0], st, fuel).st;
    StepsInv(st, st1, base, fuel);
    ListSetParts(b, st, base, fuel);
    RoomPrefix(st, st1, base, 0, 0);
    SetParts(b[0], st, base, fuel);
    ExitsHow(b[0]);
    var own := st1.stack[base..];
    if !HasReturn(b[0]) { KeepIsPrefix(st, From(Top(st.loops) + 1)); }
    forall i | 0 <= i < |own| ensures own[i].depth != st.depth { assert own[i] == st.stack[base + i]; }
    WorthNoneAt(own, st.depth);
  }

  /** The rest of a list leaves less of the outer scopes' entries, never more. */
  lemma TailShrinks(b: seq<Stmt>, st: State, base: nat, fuel: nat, d: nat)
    requires ListSet(b, st, base, fuel) && d < st.depth && forall j | 0 <= j < base :: !Match(At(st.depth), st.stack[j])
    ensures base <= |st.stack| && base <= |GenAll(b, st, fuel).st.stack|
    ensures WorthAt(GenAll(b, st, fuel).st.stack[base..], d) <= WorthAt(st.stack[base..], d)
  {
    hide GenAll, WorthAt, ListReturns, ListBreaks, ListFormed, NestingAll, ListSet, Cut, Left;
    ListSetParts(b, st, base, fuel);
    AllSteps(b, st, base, fuel);
    var st1 := GenAll(b, st, fuel).st;
    StepsInv(st, st1, base, fuel);
    ListAfter(b, st, base, fuel);
    var n := Left(ListReturns(b), ListBreaks(b), st);
    LowWorth(st1, base, d);
    BaseBelow(st, base);
    BaseKept(st, st1, base, fuel);
    BaseBelow(st1, base);
    var c, c1 := Cut(st.stack, From(st.depth)), Cut(st1.stack, From(st.depth));
    assert st1.stack[..c1] == st.stack[..Min(c, n)];
    assert |st1.stack[..c1]| == c1 == Min(c, n);
    assert st1.stack[base..c1] == st1.stack[..c1][base..];
    assert st.stack[base..][..c1 - base] == st.stack[..c1][base..];
    WorthPrefix(st.stack[base..], c1 - base, d);
  }

  lemma BaseKept(st: State, st1: State, base: nat, fuel: nat)
    requires Steps(st, st1, base, fuel) && forall j | 0 <= j < base :: !Match(At(st.depth), st.stack[j])
    ensures base <= |st1.stack| && forall j | 0 <= j < base :: !Match(At(st1.depth), st1.stack[j])
  {
  }

  lemma BaseBelow(st: State, base: nat)
    requires Inv(st) && base <= |st.stack| && forall j | 0 <= j < base :: !Match(At(st.depth), st.stack[j])
    ensures base <= Cut(st.stack, From(st.depth))
  {
    KeepIsPrefix(st, From(st.depth));
  }

  /** Only the entries below the current depth count at a lower depth. */
  lemma LowWorth(st: State, base: nat, d: nat)
    requires Inv(st) && base <= |st.stack| && d < st.depth && forall j | 0 <= j < base :: !Match(At(st.depth), st.stack[j])
    ensures base <= Cut(st.stack, From(st.depth))
    ensures WorthAt(st.stack[base..], d) == WorthAt(st.stack[base..Cut(st.stack, From(st.depth))], d)
  {
    hide WorthAt, Cut;
    BaseBelow(st, base);
    var c := Cut(st.stack, From(st.depth));
    KeepIsPrefix(st, From(st.depth));
    WorthPlus(st.stack[base..c], st.stack[c..], d);
    assert st.stack[base..] == st.stack[base..c] + st.stack[c..];
    WorthNoneAt(st.stack[c..], d);
  }

  lemma {:induction false} WorthPlus(a: seq<Entry>, b: seq<Entry>, d: nat)
    ensures WorthAt(a + b, d) == WorthAt(a, d) + WorthAt(b, d)
  {
    hide Worth;
    if b == [] {
      assert a + b == a;
    } else {
      WorthPlus(a, b[..|b| - 1], d);
      assert (a + b)[..|a + b| - 1] == a + b[..|b| - 1];
    }
  }

  lemma HeadCounted(b: seq<Stmt>, st: State, st1: State, base: nat, fuel: nat, r: seq<nat>, ret: seq<Code>, brk: seq<Code>)
    requires Below(st) && |r| == st.depth + 1 && base <= |st.stack| && base <= |st1.stack|
    requires b != [] && ListSet(b[1..], st1, base, fuel) && !b[0].Defer? && !Exits(b[0]) && st1 == Gen(b[0], st, fuel).st && st1.depth == st.depth && st1.loops == st.loops
    requires Covered(st.stack[base..], r) && exists n: nat :: ShorterBy(st1.stack[base..], st.stack[base..], n)
    requires forall j | 0 <= j < base :: !Match(At(st.depth), st1.stack[j])
    requires base <= |GenAll(b[1..], st1, fuel).st.stack|
    requires Counted(Runs(Gen(b[0], st, fuel).code), Runs(Ref(b[0], ret, brk)), Safe(b[0], ReturnPending(r), BreakPending(st, r)), st1.stack[base..], r, st.depth + 1)
    requires var own := GenAll(b[1..], st1, fuel).st.stack[base..];
      && Counted(ScopeRuns(b[1..], st1, fuel), Expected(b[1..], r, st.depth, ret, brk), SafeAll(b[1..], ReturnPending(r), BreakPending(st, r)), own, r, BeyondList(st, ExitsAll(b[1..])))
      && (ScopeRuns(b[1..], st1, fuel) == Expected(b[1..], r, st.depth, ret, brk) ==>
           WorthAt(st1.stack[base..], st.depth) == r[st.depth] && (ExitsAll(b[1..]) ==> Full(st1.stack[base..], r, ExitFrom(st))))
    ensures GenAll(b, st, fuel).st == GenAll(b[1..], st1, fuel).st
    ensures var own := GenAll(b, st, fuel).st.stack[base..];
      && Counted(ScopeRuns(b, st, fuel), Expected(b, r, st.depth, ret, brk), SafeAll(b, ReturnPending(r), BreakPending(st, r)), own, r, BeyondList(st, ExitsAll(b)))
      && (ScopeRuns(b, st, fuel) == Expected(b, r, st.depth, ret, brk) ==>
           WorthAt(st.stack[base..], st.depth) == r[st.depth] && (ExitsAll(b) ==> Full(st.stack[base..], r, ExitFrom(st))))
  {
    hide ListSet, Lacks, Gen, GenAll, Emit, Ref, RefAll, Safe, SafeAll, Exits, ExitsAll, WorthAt, Runs, ReturnPending, BreakPending, Full, Match, Below;
    PlainHead(b, st, fuel, ret, brk);
    RunsPlus(Gen(b[0], st, fuel).code, GenAll(b[1..], st1, fuel).code);
    RunsPlus(Ref(b[0], ret, brk), RefAll(b[1..], ret, brk));
    if ScopeRuns(b, st, fuel) == Expected(b, r, st.depth, ret, brk) {
      var n: nat :| ShorterBy(st1.stack[base..], st.stack[base..], n);
      WorthPrefix(st.stack[base..], n, st.depth);
      if ExitsAll(b) { FullLonger(st.stack[base..], n, r, ExitFrom(st)); }
      if Safe(b[0], ReturnPending(r), BreakPending(st, r)) {
        if SafeAll(b[1..], ReturnPending(r), BreakPending(st, r)) { SafeCons(b, ReturnPending(r), BreakPending(st, r)); }
      } else {
        BelowSame(st, st1);
        SameFlags(st, st1, r);
        StillLacks(b[1..], st1, base, fuel, r, ExitsAll(b[1..]));
      }
    }
  }

  lemma FullLonger(own: seq<Entry>, n: nat, r: seq<nat>, m: nat)
    requires n <= |own| && Full(own[..n], r, m) && Covered(own, r)
    ensures Full(own, r, m)
  {
    hide WorthAt;
    forall k: nat | m <= k < |r| ensures WorthAt(own, k) == r[k] {
      WorthPrefix(own, n, k);
      assert WorthAt(own[..n], k) == r[k];
    }
  }

  lemma StillLacks(b: seq<Stmt>, st: State, base: nat, fuel: nat, r: seq<nat>, exits: bool)
    requires ListSet(b, st, base, fuel) && Below(st) && |r| == st.depth + 1 && base <= |st.stack| && base <= |GenAll(b, st, fuel).st.stack|
    requires forall j | 0 <= j < base :: !Match(At(st.depth), st.stack[j])
    requires Lacks(st.stack[base..], r, st.depth + 1) && WorthAt(st.stack[base..], st.depth) == r[st.depth]
    requires exits ==> Full(st.stack[base..], r, ExitFrom(st))
    ensures Lacks(GenAll(b, st, fuel).st.stack[base..], r, BeyondList(st, exits))
  {
    hide ListSet, GenAll, WorthAt, Match;
    var d: nat :| d < st.depth + 1 && d < |r| && WorthAt(st.stack[base..], d) < r[d];
    TailShrinks(b, st, base, fuel, d);
    if exits { assert d < ExitFrom(st); }
  }
}
