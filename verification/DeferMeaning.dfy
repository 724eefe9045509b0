/** Without conditional exits over pending defers, the emitted code is the reference code. */
module DeferMeaning {
  import opened Defers
  import opened DeferDiscipline
  import opened DeferStack
  import opened DeferOrder

  /** The code pending in the current scope. */
  function AtCode(st: State): seq<Code> { Pending(st.stack[Cut(st.stack, At(st.depth))..]) }

  lemma ReadyParts(s: Stmt, st: State, base: nat, fuel: nat)
    requires Ready(s, st, base, fuel)
    ensures WellFormed(s) && Nesting(s) <= fuel && Allowed(HasBreak(s), HasReturn(s), st, base, fuel) && Placed(s)
    ensures Inv(st) && Fuelled(st.stack, base, fuel) && Neat(st, base, Space(s)) && (HasBreak(s) ==> st.loops != [])
    ensures Safe(s, st.stack != [], LoopCut(st) < |st.stack|)
  {
  }

  lemma ListReadyParts(b: seq<Stmt>, st: State, base: nat, fuel: nat)
    requires ListReady(b, st, base, fuel)
    ensures ListFormed(b) && NestingAll(b) <= fuel && Allowed(ListBreaks(b), ListReturns(b), st, base, fuel)
    ensures ListPlaced(b)
    ensures Inv(st) && Fuelled(st.stack, base, fuel) && Neat(st, base, SpaceAll(b)) && Neat(st, base, 0) && (ListBreaks(b) ==> st.loops != [])
    ensures SafeAll(b, st.stack != [], LoopCut(st) < |st.stack|)
  {
  }

  /** A statement whose exits have nothing to emit leaves the generator's state alone. */
  lemma StaysPut(s: Stmt, st: State, base: nat, fuel: nat)
    requires WellFormed(s) && Nesting(s) <= fuel && Allowed(HasBreak(s), HasReturn(s), st, base, fuel)
    requires Placed(s) && !s.Defer?
    requires (HasReturn(s) ==> st.stack == []) && (HasBreak(s) && st.loops != [] ==> LoopCut(st) == |st.stack|)
    ensures Gen(s, st, fuel).st == st
  {
    hide Gen, WellFormed, Placed, Allowed, Nesting, Inv, HasReturn, HasBreak;
    GenSteps(s, st, base, fuel);
    StackAfter(s, st, base, fuel);
  }

  /** What safety, placement and room say about the parts of a statement. */
  lemma SafeParts(s: Stmt, rp: bool, bp: bool)
    ensures s.Block? ==> Safe(s, rp, bp) == SafeAll(s.body, rp, bp) && Space(s) == SpaceAll(s.body)
    ensures s.Block? ==> (Placed(s) <==> ListPlaced(s.body))
    ensures s.If? ==> Safe(s, rp, bp) == (Spares(s.thn, rp, bp) && Spares(s.els, rp, bp)) && Space(s) == Max(Space(s.thn), Space(s.els))
    ensures s.If? ==> (Placed(s) ==> Placed(s.thn) && Placed(s.els))
    ensures s.Switch? ==> Safe(s, rp, bp) == SafeClauses(s.clauses, rp) && Space(s) == SpaceEach(s.clauses)
    ensures s.Switch? ==> (Placed(s) <==> EachPlaced(s.clauses)) && (WellFormed(s) <==> EachFormed(s.clauses))
    ensures s.Defer? ==> Safe(s, rp, bp) == (!s.deferred.Defer? && Safe(s.deferred, true, true)) && Space(s) == 1 + Space(s.deferred)
    ensures s.Defer? ==> (Placed(s) ==> Placed(s.deferred) && !s.deferred.Defer?)
  {
  }

  ghost predicate EachPlaced(cs: seq<Stmt>) { forall i | 0 <= i < |cs| :: cs[i].Block? && Placed(cs[i]) }
  ghost predicate EachFormed(cs: seq<Stmt>) { forall i | 0 <= i < |cs| :: cs[i].Block? && WellFormed(cs[i]) }

  lemma EachHead(cs: seq<Stmt>)
    requires cs != []
    ensures EachPlaced(cs) ==> cs[0].Block? && Placed(cs[0]) && EachPlaced(cs[1..])
    ensures EachFormed(cs) ==> WellFormed(cs[0]) && EachFormed(cs[1..])
  {
  }

  lemma SparesIs(s: Stmt, rp: bool, bp: bool)
    requires Spares(s, rp, bp)
    ensures !s.Defer? && (HasReturn(s) ==> !rp) && (HasBreak(s) ==> !bp) && Safe(s, rp, bp)
  {
  }

  lemma MakeReady(s: Stmt, st: State, base: nat, fuel: nat, n: nat)
    requires WellFormed(s) && Nesting(s) <= fuel && Allowed(HasBreak(s), HasReturn(s), st, base, fuel)
    requires Placed(s) && Neat(st, base, n) && Space(s) <= n && (HasBreak(s) ==> st.loops != [])
    requires Safe(s, st.stack != [], LoopCut(st) < |st.stack|)
    ensures Ready(s, st, base, fuel)
  {
    hide Safe, Placed, WellFormed, Nesting, HasReturn, HasBreak, Space, Allowed, LoopCut, Good;
  }

  lemma MakeListReady(b: seq<Stmt>, st: State, base: nat, fuel: nat, n: nat)
    requires ListFormed(b) && NestingAll(b) <= fuel && Allowed(ListBreaks(b), ListReturns(b), st, base, fuel)
    requires ListPlaced(b)
    requires Neat(st, base, n) && SpaceAll(b) <= n && (ListBreaks(b) ==> st.loops != [])
    requires SafeAll(b, st.stack != [], LoopCut(st) < |st.stack|)
    ensures ListReady(b, st, base, fuel)
  {
    hide SafeAll, Placed, ListFormed, NestingAll, ListReturns, ListBreaks, SpaceAll, Allowed, LoopCut, Good;
  }

  lemma IfReady(t: Stmt, e: Stmt, st: State, base: nat, fuel: nat)
    requires Ready(If(t, e), st, base, fuel)
    ensures Ready(t, st, base, fuel) && Ready(e, st, base, fuel) && !t.Defer? && !e.Defer?
    ensures (HasReturn(t) ==> st.stack == []) && (HasBreak(t) ==> LoopCut(st) == |st.stack|)
  {
    hide Ready, Safe, Spares, Placed, WellFormed, Nesting, HasReturn, HasBreak, Space, Allowed, Neat, LoopCut;
    var s := If(t, e);
    var rp, bp := st.stack != [], LoopCut(st) < |st.stack|;
    ReadyParts(s, st, base, fuel);
    Parts(s);
    SafeParts(s, rp, bp);
    SparesIs(t, rp, bp);
    SparesIs(e, rp, bp);
    Weaken(HasBreak(s), HasReturn(s), HasBreak(t), HasReturn(t), st, base, fuel);
    Weaken(HasBreak(s), HasReturn(s), HasBreak(e), HasReturn(e), st, base, fuel);
    MakeReady(t, st, base, fuel, Space(s));
    MakeReady(e, st, base, fuel, Space(s));
    LoopCutBound(st);
  }

  lemma LoopCutBound(st: State)
    ensures LoopCut(st) <= |st.stack|
  {
  }

  lemma LoopReady(b: Stmt, st: State, base: nat, fuel: nat)
    requires Ready(Loop(b), st, base, fuel)
    ensures Ready(b, EnterLoop(st), base, fuel) && !b.Defer?
  {
    Entered(HasBreak(Loop(b)), HasReturn(Loop(b)), HasBreak(b), st, base, fuel);
    BrkInLoop(st);
  }

  lemma BlockReady(b: seq<Stmt>, st: State, base: nat, fuel: nat)
    requires Ready(Block(b), st, base, fuel)
    ensures ListReady(b, EnterBlock(st), base, fuel) && Below(EnterBlock(st)) && AtCode(EnterBlock(st)) == []
    ensures RetCode(EnterBlock(st)) == RetCode(st) && BrkCode(EnterBlock(st)) == BrkCode(st)
  {
    hide Ready, ListReady, Safe, SafeAll, Placed, WellFormed, Nesting, NestingAll, ListFormed, ListPlaced, ListReturns, ListBreaks, HasReturn, HasBreak, Space, SpaceAll, Allowed, Neat, Inv, Fuelled, Pending, Cut, Below, AtCode;
    var s := Block(b);
    ReadyParts(s, st, base, fuel);
    Parts(s);
    SafeParts(s, st.stack != [], LoopCut(st) < |st.stack|);
    Entered(ListBreaks(b), ListReturns(b), ListBreaks(b), st, base, fuel);
    NeatSame(st, EnterBlock(st), base, Space(s));
    MakeListReady(b, EnterBlock(st), base, fuel, Space(s));
    BelowNow(st);
  }

  lemma BelowNow(st: State)
    requires Inv(st)
    ensures Below(EnterBlock(st)) && AtCode(EnterBlock(st)) == []
  {
    CutWhole(st.stack, At(st.depth + 1));
  }

  /** Every enclosing loop was entered outside the current scope. */
  ghost predicate Below(st: State) { st.loops == [] || Top(st.loops) < st.depth }

  lemma {:induction false} GenOrder(s: Stmt, st: State, base: nat, fuel: nat)
    requires Ready(s, st, base, fuel) && !s.Defer?
    ensures Gen(s, st, fuel).code == Ref(s, RetCode(st), BrkCode(st))
    decreases fuel, Size(s), 0
  {
    hide Inv, Fuelled, Allowed, Ready, ListReady, WellFormed, HasBreak, HasReturn, Nesting, Emit, GenAll, Neat, Placed, Safe, Pending, Cut, Space;
    ReadyParts(s, st, base, fuel);
    match s
    case Plain(_) =>
    case Skip =>
    case Block(b) =>
      BlockReady(b, st, base, fuel);
      ListOrder(b, EnterBlock(st), base, fuel);
    case If(t, e) =>
      IfReady(t, e, st, base, fuel);
      GenOrder(t, st, base, fuel);
      ReadyParts(t, st, base, fuel);
      StaysPut(t, st, base, fuel);
      GenOrder(e, st, base, fuel);
    case Loop(b) =>
      LoopReady(b, st, base, fuel);
      BrkInLoop(st);
      GenOrder(b, EnterLoop(st), base, fuel);
    case Switch(cs) =>
      ClausesOrder(cs, st, base, fuel);
    case Break =>
      JumpReady(Break, st, base, fuel);
      EmitCode(st, From(Top(st.loops) + 1), base, fuel);
    case Continue =>
      JumpReady(Continue, st, base, fuel);
      EmitCode(st, From(Top(st.loops) + 1), base, fuel);
    case Return =>
      ReturnReady(st, base, fuel);
      EmitCode(st, All, base, fuel);
      CutAll(st.stack);
      assert st.stack[0..] == st.stack;
  }

  lemma JumpReady(s: Stmt, st: State, base: nat, fuel: nat)
    requires Ready(s, st, base, fuel) && (s.Break? || s.Continue?)
    ensures Neat(st, base, 0) && st.loops != [] && Inv(st) && Fuelled(st.stack, base, fuel)
    ensures forall j | 0 <= j < base :: !Match(From(Top(st.loops) + 1), st.stack[j])
  {
  }

  lemma ReturnReady(st: State, base: nat, fuel: nat)
    requires Ready(Return, st, base, fuel)
    ensures base == 0 && Neat(st, base, 0)
  {
  }

  lemma AtPush(st: State, st1: State, d: Stmt)
    requires Inv(st) && st1 == st.(stack := st.stack + [Entry(d, st.depth)])
    ensures AtCode(st1) == Ref(d, [], []) + AtCode(st)
  {
    hide Ref, Cut;
    var e := Entry(d, st.depth);
    var c := Cut(st.stack, At(st.depth));
    assert st1.stack[..|st.stack|] == st.stack;
    CutOfPrefix(st1.stack, |st.stack|, At(st.depth));
    CutHits(st1.stack, At(st.depth), |st.stack|);
    assert st1.stack[c..] == st.stack[c..] + [e];
    PendingPush(st.stack[c..], e);
  }

  lemma DeferReady(b: seq<Stmt>, st: State, base: nat, fuel: nat)
    requires ListReady(b, st, base, fuel) && b != [] && b[0].Defer? && Below(st)
    ensures |st.stack| < MAX_DEFERS
    ensures var st1 := st.(stack := st.stack + [Entry(b[0].deferred, st.depth)]); ListReady(b[1..], st1, base, fuel)
  {
    hide Ready, ListReady, Safe, SafeAll, Placed, WellFormed, Nesting, ListFormed, ListPlaced, ListReturns, ListBreaks, HasReturn, HasBreak, Space, Allowed, Steps, Inv, Fuelled, Neat, LoopCut, Good, Deferrable, SpaceAll, NestingAll, RetCode, BrkCode;
    var d := b[0].deferred;
    var st1 := st.(stack := st.stack + [Entry(d, st.depth)]);
    ListReadyParts(b, st, base, fuel);
    ListHead(b);
    Parts(b[0]);
    SafeParts(b[0], st.stack != [], LoopCut(st) < |st.stack|);
    NestingHead(b);
    GoodOne(d);
    Pushed(st, d, base, fuel);
    Carry(ListBreaks(b), ListReturns(b), st, st1, base, fuel);
    Weaken(ListBreaks(b), ListReturns(b), ListBreaks(b[1..]), ListReturns(b[1..]), st1, base, fuel);
    BrkPush(st, st1, d);
    SafeAllHead(b, st.stack != [], LoopCut(st) < |st.stack|);
    SafeAllLess(b[1..], true, true, st1.stack != [], LoopCut(st1) < |st1.stack|);
    NeatPush(st, st1, d, base, SpaceAll(b), SpaceAll(b[1..]));
    MakeListReady(b[1..], st1, base, fuel, SpaceAll(b[1..]));
  }

  lemma GoodOne(d: Stmt)
    ensures Good(d) <==> !d.Defer? && Placed(d) && Safe(d, true, true) && Deferrable(d)
  {
  }

  lemma NestingHead(b: seq<Stmt>)
    requires b != []
    ensures ListPlaced(b) ==> Placed(b[0]) && ListPlaced(b[1..])
    ensures NestingAll(b) == Max(Nesting(b[0]), NestingAll(b[1..]))
    ensures SpaceAll(b) == if b[0].Defer? then Space(b[0]) + SpaceAll(b[1..]) else Max(Space(b[0]), SpaceAll(b[1..]))
  {
  }

  lemma SafeAllHead(b: seq<Stmt>, rp: bool, bp: bool)
    requires SafeAll(b, rp, bp) && b != []
    ensures Safe(b[0], rp, bp) && (Exits(b[0]) ==> b[1..] == []) && SafeAll(b[1..], rp || b[0].Defer?, bp || b[0].Defer?)
  {
  }

  lemma NeatPush(st: State, st1: State, d: Stmt, base: nat, m: nat, n: nat)
    requires Neat(st, base, m) && Good(d) && m == 1 + Space(d) + n && st1.stack == st.stack + [Entry(d, st.depth)]
    ensures Neat(st1, base, n) && |st.stack| < MAX_DEFERS
  {
    hide Good, Space;
  }

  lemma HeadReady(b: seq<Stmt>, st: State, base: nat, fuel: nat)
    requires ListReady(b, st, base, fuel) && b != [] && !b[0].Defer?
    ensures Ready(b[0], st, base, fuel) && ListReady(b[1..], st, base, fuel)
    ensures Exits(b[0]) ==> b[1..] == []
    ensures !Exits(b[0]) ==> (HasReturn(b[0]) ==> st.stack == []) && (HasBreak(b[0]) ==> LoopCut(st) == |st.stack|)
  {
    hide Ready, ListReady, Safe, SafeAll, Placed, WellFormed, Nesting, ListFormed, ListPlaced, ListReturns, ListBreaks, HasReturn, HasBreak, Space, Allowed, Inv, Fuelled, Neat, LoopCut, Exits;
    ListReadyParts(b, st, base, fuel);
    ListHead(b);
    NestingHead(b);
    SafeAllHead(b, st.stack != [], LoopCut(st) < |st.stack|);
    Weaken(ListBreaks(b), ListReturns(b), HasBreak(b[0]), HasReturn(b[0]), st, base, fuel);
    Weaken(ListBreaks(b), ListReturns(b), ListBreaks(b[1..]), ListReturns(b[1..]), st, base, fuel);
    MakeReady(b[0], st, base, fuel, SpaceAll(b));
    NeatLess(st, base, SpaceAll(b), SpaceAll(b[1..]));
    MakeListReady(b[1..], st, base, fuel, SpaceAll(b[1..]));
    LoopCutBound(st);
    if !Exits(b[0]) { SafeStays(b[0], st.stack != [], LoopCut(st) < |st.stack|); }
  }

  lemma NeatLess(st: State, base: nat, m: nat, n: nat)
    requires Neat(st, base, m) && n <= m
    ensures Neat(st, base, n)
  {
    hide Good, Space;
  }

  /** A list followed by the defers of its scope. */
  lemma {:induction false} ListOrder(b: seq<Stmt>, st: State, base: nat, fuel: nat)
    requires ListReady(b, st, base, fuel) && Below(st) && forall j | 0 <= j < base :: !Match(At(st.depth), st.stack[j])
    ensures var o := GenAll(b, st, fuel);
      o.code + Emit(o.st, At(st.depth), fuel).code == RefAll(b, RetCode(st), BrkCode(st)) + if ExitsAll(b) then [] else AtCode(st)
    decreases fuel, SizeAll(b), 2
  {
    hide Inv, Fuelled, Allowed, Ready, ListReady, WellFormed, HasBreak, HasReturn, Nesting, ListReturns, ListBreaks, ListFormed;
    hide Emit, Neat, Placed, Safe, SafeAll, Cut, Space, Ref, Exits, ExitsAll, RetCode, BrkCode, AtCode, Match;
    ListReadyParts(b, st, base, fuel);
    if b == [] {
      NothingExits();
      EmitCode(st, At(st.depth), base, fuel);
      AtCodeIs(st);
    } else {
      ExitsHead(b);
      if b[0].Defer? {
        var d := b[0].deferred;
        var st1 := st.(stack := st.stack + [Entry(d, st.depth)]);
        DeferReady(b, st, base, fuel);
        BrkPush(st, st1, d);
        AtPush(st, st1, d);
        DeferNoExit(b[0]);
        ListOrder(b[1..], st1, base, fuel);
        RefAllDefer(b, RetCode(st), BrkCode(st));
        GenDefer(b, st, fuel);
        var code := Ref(d, [], []);
        Assoc(RefAll(b[1..], code + RetCode(st), code + BrkCode(st)), code, AtCode(st));
      } else {
        HeadReady(b, st, base, fuel);
        GenOrder(b[0], st, base, fuel);
        ReadyParts(b[0], st, base, fuel);
        var o1 := Gen(b[0], st, fuel);
        if Exits(b[0]) {
          ExitEmits(b[0], st, base, fuel);
          assert o1.code + [] == o1.code;
        } else {
          StaysPut(b[0], st, base, fuel);
          ListOrder(b[1..], st, base, fuel);
          var o2 := GenAll(b[1..], st, fuel);
          Assoc(o1.code, o2.code, Emit(o2.st, At(st.depth), fuel).code);
          Assoc(o1.code, RefAll(b[1..], RetCode(st), BrkCode(st)), if ExitsAll(b) then [] else AtCode(st));
        }
      }
    }
  }

  lemma GenDefer(b: seq<Stmt>, st: State, fuel: nat)
    requires b != [] && b[0].Defer? && |st.stack| < MAX_DEFERS
    ensures var st1 := st.(stack := st.stack + [Entry(b[0].deferred, st.depth)]);
      GenAll(b, st, fuel).code == GenAll(b[1..], st1, fuel).code && GenAll(b, st, fuel).st == GenAll(b[1..], st1, fuel).st
  {
    var o := GenAll(b[1..], st.(stack := st.stack + [Entry(b[0].deferred, st.depth)]), fuel);
    assert [] + o.code == o.code;
  }

  lemma Assoc(a: seq<Code>, b: seq<Code>, c: seq<Code>)
    ensures (a + b) + c == a + (b + c)
  {
  }

  lemma AtCodeIs(st: State)
    ensures AtCode(st) == Pending(st.stack[Cut(st.stack, At(st.depth))..])
  {
  }

  lemma NothingExits()
    ensures !ExitsAll([])
  {
  }

  lemma DeferNoExit(s: Stmt)
    requires s.Defer?
    ensures !Exits(s)
  {
  }

  lemma RefAllDefer(b: seq<Stmt>, ret: seq<Code>, brk: seq<Code>)
    requires b != [] && b[0].Defer?
    ensures var code := Ref(b[0].deferred, [], []);
      RefAll(b, ret, brk) == RefAll(b[1..], code + ret, code + brk) + if ExitsAll(b[1..]) then [] else code
  {
  }

  lemma IfCode(t: Stmt, e: Stmt, st: State, fuel: nat)
    ensures var o1 := Gen(t, st, fuel); var o2 := Gen(e, o1.st, fuel);
      Gen(If(t, e), st, fuel).code == [Branch(o1.code, o2.code)] && Gen(If(t, e), st, fuel).st == o2.st
  {
  }

  /** Behind an exit the scope has nothing left to emit. */
  lemma {:induction false} ExitEmits(s: Stmt, st: State, base: nat, fuel: nat)
    requires Ready(s, st, base, fuel) && Exits(s) && !s.Defer? && Below(st)
    requires forall j | 0 <= j < base :: !Match(At(st.depth), st.stack[j])
    ensures Emit(Gen(s, st, fuel).st, At(st.depth), fuel).code == []
    decreases fuel, Size(s), 1
  {
    hide Gen, Emit, Inv, Allowed, Nesting, WellFormed, Placed, Safe, Space, Ref, HasReturn, HasBreak, Exits, Cut;
    ReadyParts(s, st, base, fuel);
    ExitsHow(s);
    GenSteps(s, st, base, fuel);
    StackAfter(s, st, base, fuel);
    var st1 := Gen(s, st, fuel).st;
    StepsInv(st, st1, base, fuel);
    assert Neat(st1, base, 0);
    EmitCode(st1, At(st.depth), base, fuel);
    NoneAt(HasReturn(s), HasBreak(s), st, st1);
  }

  lemma {:induction false} ExitsHow(s: Stmt)
    requires Exits(s)
    ensures HasReturn(s) || HasBreak(s)
    decreases s
  {
    if s.Block? {
      var i :| 0 <= i < |s.body| && Exits(s.body[i]);
      ExitsHow(s.body[i]);
    }
  }

  lemma NoneAt(leaves: bool, jumps: bool, st: State, st1: State)
    requires Inv(st) && st1.stack == st.stack[..Left(leaves, jumps, st)] && (leaves || (jumps && st.loops != [])) && Below(st)
    ensures Pending(st1.stack[Cut(st1.stack, At(st.depth))..]) == []
  {
    hide Cut;
    CutWhole(st1.stack, At(st.depth));
  }

  lemma {:induction false} ClausesOrder(cs: seq<Stmt>, st: State, base: nat, fuel: nat)
    requires Ready(Switch(cs), st, base, fuel)
    ensures GenClauses(cs, EnterLoop(st), fuel).code == RefClauses(cs, RetCode(st))
    decreases fuel, SizeAll(cs), 1
  {
    hide Inv, Fuelled, Allowed, Ready, Cut, Gen, Ref, Pending, Neat, RetCode, BrkCode, LoopCut;
    if cs != [] {
      ClauseReady(cs, st, base, fuel);
      BrkInLoop(st);
      GenOrder(cs[0], EnterLoop(st), base, fuel);
      ReadyParts(cs[0], EnterLoop(st), base, fuel);
      StaysPut(cs[0], EnterLoop(st), base, fuel);
      ClausesOrder(cs[1..], st, base, fuel);
    }
  }

  lemma ClauseReady(cs: seq<Stmt>, st: State, base: nat, fuel: nat)
    requires Ready(Switch(cs), st, base, fuel) && cs != []
    ensures Ready(cs[0], EnterLoop(st), base, fuel) && !cs[0].Defer? && Ready(Switch(cs[1..]), st, base, fuel) && Inv(st)
    ensures HasReturn(cs[0]) ==> st.stack == []
  {
    hide Ready, Safe, SafeClauses, Placed, WellFormed, Nesting, EachPlaced, EachFormed, ListFormed, ListReturns, ListBreaks, HasReturn, HasBreak, Space, Allowed, Inv, Fuelled, Neat, LoopCut;
    var s, s1 := Switch(cs), Switch(cs[1..]);
    var rp, bp := st.stack != [], LoopCut(st) < |st.stack|;
    ReadyParts(s, st, base, fuel);
    Parts(s);
    Parts(s1);
    SafeParts(s, rp, bp);
    SafeParts(s1, rp, bp);
    ListHead(cs);
    EachHead(cs);
    NestingHead(cs);
    ClausesHead(cs, rp);
    Entered(HasBreak(s), HasReturn(s), ListBreaks(cs), st, base, fuel);
    Weaken(ListBreaks(cs), HasReturn(s), HasBreak(cs[0]), HasReturn(cs[0]), EnterLoop(st), base, fuel);
    Weaken(HasBreak(s), HasReturn(s), HasBreak(s1), HasReturn(s1), st, base, fuel);
    BrkInLoop(st);
    NeatSame(st, EnterLoop(st), base, Space(s));
    MakeReady(cs[0], EnterLoop(st), base, fuel, Space(s));
    MakeReady(s1, st, base, fuel, Space(s));
  }

  lemma ClausesHead(cs: seq<Stmt>, rp: bool)
    requires SafeClauses(cs, rp) && cs != []
    ensures cs[0].Block? && (HasReturn(cs[0]) ==> !rp) && Safe(cs[0], rp, false) && SafeClauses(cs[1..], rp)
    ensures SpaceEach(cs) == Max(Space(cs[0]), SpaceEach(cs[1..]))
  {
  }

  lemma NeatSame(st: State, st1: State, base: nat, n: nat)
    requires Neat(st, base, n) && st1.stack == st.stack
    ensures Neat(st1, base, n)
  {
  }

  /** An emission emits the matching entries in reverse, each as its reference code. */
  lemma {:induction false} EmitCode(st: State, w: Which, base: nat, fuel: nat)
    requires Inv(st) && Fuelled(st.stack, base, fuel) && Neat(st, base, 0) && Proper(w, st.depth)
    requires forall j | 0 <= j < base :: !Match(w, st.stack[j])
    ensures Emit(st, w, fuel).code == Pending(st.stack[Cut(st.stack, w)..])
    decreases fuel, 0, 1
  {
    hide Inv, Neat, EmitBelow, Cut, Keep, Fuelled, Match;
    KeepIsPrefix(st, w);
    EmitBelowCode(st, |st.stack|, Cut(st.stack, w), w, base, fuel);
    assert st.stack[Cut(st.stack, w)..|st.stack|] == st.stack[Cut(st.stack, w)..];
  }

  lemma {:induction false} EmitBelowCode(st: State, i: nat, c: nat, w: Which, base: nat, fuel: nat)
    requires Inv(st) && Fuelled(st.stack, base, fuel) && Neat(st, base, 0) && c <= |st.stack| && i <= |st.stack|
    requires forall j | 0 <= j < |st.stack| :: Match(w, st.stack[j]) <==> j >= c
    requires forall j | 0 <= j < base :: !Match(w, st.stack[j])
    ensures EmitBelow(st, i, w, fuel).code == (if i > c then Pending(st.stack[c..i]) else []) && EmitBelow(st, i, w, fuel).st == st
    decreases fuel, 0, 0, i
  {
    hide Inv, Fuelled, Neat, Gen, Ref, Good, Ready, HasReturn, HasBreak, WellFormed, Nesting, Placed, Safe, Match, Pending, RetCode, BrkCode, LoopCut, Allowed, Space;
    if i > 0 {
      if Match(w, st.stack[i - 1]) {
        var d := st.stack[i - 1].node;
        EntryReady(st, i, base, fuel);
        GenOrder(d, st, |st.stack|, fuel - 1);
        RefSame(d, RetCode(st), BrkCode(st), [], []);
        ReadyParts(d, st, |st.stack|, fuel - 1);
        StaysPut(d, st, |st.stack|, fuel - 1);
        EmitBelowCode(st, i - 1, c, w, base, fuel);
        PendingLast(st.stack, c, i);
      } else {
        EmitBelowCode(st, i - 1, c, w, base, fuel);
      }
    }
  }

  lemma PendingLast(stack: seq<Entry>, c: nat, i: nat)
    requires c < i <= |stack|
    ensures Pending(stack[c..i]) == Ref(stack[i - 1].node, [], []) + (if i - 1 > c then Pending(stack[c..i - 1]) else [])
  {
    hide Ref;
    assert stack[c..i][..i - 1 - c] == stack[c..i - 1];
    if i - 1 == c { assert stack[c..i - 1] == []; }
  }

  lemma EntryReady(st: State, i: nat, base: nat, fuel: nat)
    requires Inv(st) && Fuelled(st.stack, base, fuel) && Neat(st, base, 0) && base < i <= |st.stack|
    ensures fuel > 0 && Ready(st.stack[i - 1].node, st, |st.stack|, fuel - 1)
    ensures var d := st.stack[i - 1].node; !d.Defer? && !HasReturn(d) && !HasBreak(d)
  {
    hide Inv, Cut;
    var d := st.stack[i - 1].node;
    Emitted(st, i, fuel);
    SafeLess(d, true, true, st.stack != [], LoopCut(st) < |st.stack|);
  }
}
