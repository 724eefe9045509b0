/** When the emitted order is the reference order, exactly: whatever a conditional exit takes off the stack is missing
    later, and what is missing shows in the number of actions emitted. */
module DeferExact {
  import opened Defers
  import opened DeferDiscipline
  import opened DeferStack
  import opened DeferOrder
  import opened DeferMeaning

  // ---- counting actions ----

  function Runs(code: seq<Code>): nat {
    if code == [] then 0 else RunsOf(code[0]) + Runs(code[1..])
  }

  function RunsOf(c: Code): nat {
    match c
    case Do(_) => 1
    case Branch(t, e) => Runs(t) + Runs(e)
    case Repeat(b) => Runs(b)
    case Choose(cs) => RunsEach(cs)
    case Exit(_) => 0
  }

  function RunsEach(cs: seq<Arm>): nat {
    if cs == [] then 0 else Runs(cs[0].body) + RunsEach(cs[1..])
  }

  lemma {:induction false} RunsPlus(a: seq<Code>, b: seq<Code>)
    ensures Runs(a + b) == Runs(a) + Runs(b)
  {
    if a == [] {
      assert a + b == b;
    } else {
      RunsPlus(a[1..], b);
      assert (a + b)[1..] == a[1..] + b;
    }
  }

  lemma RunsOne(c: Code)
    ensures Runs([c]) == RunsOf(c)
  {
    assert [c][1..] == [];
  }

  // ---- programs considered ----

  /** Nothing stands behind a statement that leaves. */
  predicate NoDead(s: Stmt) {
    match s
    case Block(b) => NoDeadAll(b)
    case If(t, e) => NoDead(t) && NoDead(e)
    case Loop(b) => NoDead(b)
    case Switch(cs) => NoDeadEach(cs)
    case Defer(d) => NoDead(d)
    case _ => true
  }

  predicate NoDeadAll(b: seq<Stmt>) {
    b == [] || (NoDead(b[0]) && (Exits(b[0]) ==> b[1..] == []) && NoDeadAll(b[1..]))
  }

  predicate NoDeadEach(cs: seq<Stmt>) { cs == [] || (NoDead(cs[0]) && NoDeadEach(cs[1..])) }

  /** Every deferred statement emits some action. */
  predicate Telling(s: Stmt) {
    match s
    case Block(b) => TellingAll(b)
    case If(t, e) => Telling(t) && Telling(e)
    case Loop(b) => Telling(b)
    case Switch(cs) => TellingAll(cs)
    case Defer(d) => Telling(d) && Runs(Ref(d, [], [])) > 0
    case _ => true
  }

  predicate TellingAll(b: seq<Stmt>) { b == [] || (Telling(b[0]) && TellingAll(b[1..])) }

  /** Deferred code as it may stand on the stack. */
  predicate Fine(d: Stmt) {
    !d.Defer? && Placed(d) && Deferrable(d) && NoDead(d) && Telling(d) && Runs(Ref(d, [], [])) > 0
  }

  // ---- weights ----

  function Weight(d: Stmt): nat { Runs(Ref(d, [], [])) }

  /** What a pending entry can at most still contribute: one less when its own code is not in order. */
  function Worth(e: Entry): nat {
    if Safe(e.node, true, true) || Weight(e.node) == 0 then Weight(e.node) else Weight(e.node) - 1
  }

  function WorthAt(stack: seq<Entry>, depth: nat): nat {
    if stack == [] then 0
    else WorthAt(stack[..|stack| - 1], depth) + if stack[|stack| - 1].depth == depth then Worth(stack[|stack| - 1]) else 0
  }

  function WorthFrom(stack: seq<Entry>, depth: nat): nat {
    if stack == [] then 0
    else WorthFrom(stack[..|stack| - 1], depth) + if stack[|stack| - 1].depth >= depth then Worth(stack[|stack| - 1]) else 0
  }

  /** The weight pending in the reference, scope depth by scope depth. */
  function Sum(r: seq<nat>, m: nat): nat
    decreases |r| - m
  {
    if m >= |r| then 0 else r[m] + Sum(r, m + 1)
  }

  ghost predicate Covered(stack: seq<Entry>, r: seq<nat>) {
    && (forall i | 0 <= i < |stack| :: stack[i].depth < |r|)
    && forall d: nat | d < |r| :: WorthAt(stack, d) <= r[d]
  }

  /** Something the reference has pending at a depth below m is missing. */
  ghost predicate Lacks(stack: seq<Entry>, r: seq<nat>, m: nat) {
    exists d: nat :: d < m && d < |r| && WorthAt(stack, d) < r[d]
  }

  lemma {:induction false} WorthSplit(stack: seq<Entry>, m: nat)
    ensures WorthFrom(stack, m) == WorthAt(stack, m) + WorthFrom(stack, m + 1)
  {
    hide Worth;
    if stack != [] { WorthSplit(stack[..|stack| - 1], m); }
  }

  lemma {:induction false} WorthNone(stack: seq<Entry>, m: nat)
    requires forall i | 0 <= i < |stack| :: stack[i].depth < m
    ensures WorthFrom(stack, m) == 0
  {
    hide Worth;
    if stack != [] { WorthNone(stack[..|stack| - 1], m); }
  }

  lemma {:induction false} WorthNoneAt(stack: seq<Entry>, m: nat)
    requires forall i | 0 <= i < |stack| :: stack[i].depth != m
    ensures WorthAt(stack, m) == 0
  {
    hide Worth;
    if stack != [] { WorthNoneAt(stack[..|stack| - 1], m); }
  }

  /** Term by term below, so in sum below; equal in sum, so equal term by term. */
  lemma {:induction false} CoveredSum(stack: seq<Entry>, r: seq<nat>, m: nat)
    requires Covered(stack, r)
    ensures WorthFrom(stack, m) <= Sum(r, m)
    ensures WorthFrom(stack, m) == Sum(r, m) ==> forall d: nat | m <= d < |r| :: WorthAt(stack, d) == r[d]
    decreases |r| - m
  {
    hide WorthFrom, WorthAt;
    if m >= |r| {
      WorthNone(stack, m);
    } else {
      WorthSplit(stack, m);
      CoveredSum(stack, r, m + 1);
    }
  }

  lemma {:induction false} SumZero(r: seq<nat>, m: nat)
    requires forall d: nat | m <= d < |r| :: r[d] == 0
    ensures Sum(r, m) == 0
    decreases |r| - m
  {
    if m < |r| { SumZero(r, m + 1); }
  }

  lemma {:induction false} SumPositive(r: seq<nat>, m: nat) returns (d: nat)
    requires Sum(r, m) > 0
    ensures m <= d < |r| && r[d] > 0
    decreases |r| - m
  {
    if r[m] > 0 { d := m; } else { d := SumPositive(r, m + 1); }
  }

  lemma {:induction false} SumAppendZero(r: seq<nat>, m: nat)
    ensures Sum(r + [0], m) == Sum(r, m)
    decreases |r| - m
  {
    if m < |r| {
      SumAppendZero(r, m + 1);
    } else if m == |r| {
      assert Sum(r + [0], m + 1) == 0;
    }
  }

  lemma {:induction false} SumUpdate(r: seq<nat>, k: nat, w: nat, m: nat)
    requires k < |r|
    ensures Sum(r[k := r[k] + w], m) == Sum(r, m) + if m <= k then w else 0
    decreases |r| - m
  {
    if m < |r| { SumUpdate(r, k, w, m + 1); }
  }

  lemma {:induction false} WorthPrefix(stack: seq<Entry>, n: nat, d: nat)
    requires n <= |stack|
    ensures WorthAt(stack[..n], d) <= WorthAt(stack, d)
  {
    hide Worth;
    if n == |stack| {
      assert stack[..n] == stack;
    } else {
      WorthPrefix(stack[..|stack| - 1], n, d);
      assert stack[..|stack| - 1][..n] == stack[..n];
    }
  }

  lemma WorthPush(stack: seq<Entry>, e: Entry, d: nat)
    ensures WorthAt(stack + [e], d) == WorthAt(stack, d) + if e.depth == d then Worth(e) else 0
  {
    hide Worth;
    assert (stack + [e])[..|stack|] == stack;
  }

  // ---- the own part of the stack ----

  ghost predicate Room(st: State, base: nat, n: nat) {
    && |st.stack| + n <= MAX_DEFERS
    && forall i | base <= i < |st.stack| :: Fine(st.stack[i].node) && |st.stack| + n + Space(st.stack[i].node) <= MAX_DEFERS
  }

  /** The reference's pending weights, and the code that a return or a jump must emit for them. */
  ghost predicate Accounts(st: State, base: nat, r: seq<nat>, ret: seq<Code>, brk: seq<Code>) {
    && base <= |st.stack| && |r| == st.depth + 1 && Covered(st.stack[base..], r)
    && Runs(ret) == Sum(r, 0) && (st.loops != [] ==> Runs(brk) == Sum(r, Top(st.loops) + 1))
  }

  ghost predicate Set(s: Stmt, st: State, base: nat, fuel: nat) {
    && WellFormed(s) && Nesting(s) <= fuel && Allowed(HasBreak(s), HasReturn(s), st, base, fuel)
    && Placed(s) && NoDead(s) && Telling(s) && Room(st, base, Space(s)) && (HasBreak(s) ==> st.loops != [])
  }

  ghost predicate ListSet(b: seq<Stmt>, st: State, base: nat, fuel: nat) {
    && ListFormed(b) && NestingAll(b) <= fuel && Allowed(ListBreaks(b), ListReturns(b), st, base, fuel)
    && ListPlaced(b) && NoDeadAll(b) && TellingAll(b) && Room(st, base, SpaceAll(b)) && (ListBreaks(b) ==> st.loops != [])
  }

  /** Depths whose loss an exit does not repair. */
  function Beyond(st: State, exits: bool): nat {
    if !exits then st.depth + 1 else if st.loops == [] then 0 else Top(st.loops) + 1
  }

  function ReturnPending(r: seq<nat>): bool { Sum(r, 0) > 0 }

  function BreakPending(st: State, r: seq<nat>): bool { st.loops == [] || Sum(r, Top(st.loops) + 1) > 0 }

  // ---- flags that do not matter ----

  lemma {:induction false} SafeFlags(s: Stmt, rp: bool, bp: bool, rp': bool, bp': bool)
    requires Safe(s, rp, bp) && (HasReturn(s) ==> rp == rp') && (HasBreak(s) ==> bp == bp')
    ensures Safe(s, rp', bp')
    decreases s, 0
  {
    hide HasReturn, HasBreak, ListReturns, ListBreaks, WellFormed, Nesting;
    Parts(s);
    match s
    case Plain(_) =>
    case Skip =>
    case Block(b) => SafeAllFlags(b, rp, bp, rp', bp');
    case If(t, e) =>
      SafeFlags(t, rp, bp, rp', bp');
      SafeFlags(e, rp, bp, rp', bp');
    case Loop(b) => SafeFlags(b, rp, false, rp', false);
    case Switch(cs) => SafeClausesFlags(cs, rp, rp');
    case Defer(_) =>
    case Break =>
    case Continue =>
    case Return =>
  }

  lemma {:induction false} SafeAllFlags(b: seq<Stmt>, rp: bool, bp: bool, rp': bool, bp': bool)
    requires SafeAll(b, rp, bp) && (ListReturns(b) ==> rp == rp') && (ListBreaks(b) ==> bp == bp')
    ensures SafeAll(b, rp', bp')
    decreases b, 0
  {
    hide Safe, ListReturns, ListBreaks, HasReturn, HasBreak;
    if b != [] {
      ListHead(b);
      SafeFlags(b[0], rp, bp, rp', bp');
      SafeAllFlags(b[1..], rp || b[0].Defer?, bp || b[0].Defer?, rp' || b[0].Defer?, bp' || b[0].Defer?);
    }
  }

  lemma {:induction false} SafeClausesFlags(cs: seq<Stmt>, rp: bool, rp': bool)
    requires SafeClauses(cs, rp) && (ListReturns(cs) ==> rp == rp')
    ensures SafeClauses(cs, rp')
    decreases cs, 0
  {
    hide Safe, ListReturns, HasReturn, HasBreak;
    if cs != [] {
      ListHead(cs);
      SafeFlags(cs[0], rp, false, rp', false);
      SafeClausesFlags(cs[1..], rp, rp');
    }
  }

  // ---- what is left, and what is lost ----

  lemma SetParts(s: Stmt, st: State, base: nat, fuel: nat)
    requires Set(s, st, base, fuel)
    ensures WellFormed(s) && Nesting(s) <= fuel && Allowed(HasBreak(s), HasReturn(s), st, base, fuel) && Placed(s) && NoDead(s) && Telling(s)
    ensures Inv(st) && Fuelled(st.stack, base, fuel) && base <= |st.stack| && Room(st, base, Space(s)) && (HasBreak(s) ==> st.loops != [])
  {
  }

  lemma ListSetParts(b: seq<Stmt>, st: State, base: nat, fuel: nat)
    requires ListSet(b, st, base, fuel)
    ensures ListFormed(b) && NestingAll(b) <= fuel && Allowed(ListBreaks(b), ListReturns(b), st, base, fuel) && ListPlaced(b) && NoDeadAll(b) && TellingAll(b)
    ensures Inv(st) && Fuelled(st.stack, base, fuel) && base <= |st.stack| && Room(st, base, SpaceAll(b)) && Room(st, base, 0) && (ListBreaks(b) ==> st.loops != [])
  {
  }

  lemma MakeSet(s: Stmt, st: State, base: nat, fuel: nat, n: nat)
    requires WellFormed(s) && Nesting(s) <= fuel && Allowed(HasBreak(s), HasReturn(s), st, base, fuel)
    requires Placed(s) && NoDead(s) && Telling(s) && Room(st, base, n) && Space(s) <= n && (HasBreak(s) ==> st.loops != [])
    ensures Set(s, st, base, fuel)
  {
    hide Placed, WellFormed, Nesting, HasReturn, HasBreak, Space, Allowed, Fine, NoDead, Telling;
  }

  lemma MakeListSet(b: seq<Stmt>, st: State, base: nat, fuel: nat, n: nat)
    requires ListFormed(b) && NestingAll(b) <= fuel && Allowed(ListBreaks(b), ListReturns(b), st, base, fuel)
    requires ListPlaced(b) && NoDeadAll(b) && TellingAll(b) && Room(st, base, n) && SpaceAll(b) <= n && (ListBreaks(b) ==> st.loops != [])
    ensures ListSet(b, st, base, fuel)
  {
    hide ListPlaced, ListFormed, NestingAll, ListReturns, ListBreaks, SpaceAll, Allowed, Fine, NoDeadAll, TellingAll;
  }

  /** After a statement the own entries are a prefix of those before. */
  lemma OwnAfter(s: Stmt, st: State, base: nat, fuel: nat)
    requires Set(s, st, base, fuel) && !s.Defer?
    ensures var st1 := Gen(s, st, fuel).st; var n := Left(HasReturn(s), HasBreak(s), st);
      && base <= n && st1.stack == st.stack[..n] && st1.depth == st.depth && st1.loops == st.loops
      && base <= |st1.stack| && st1.stack[base..] == st.stack[base..][..n - base]
      && Steps(st, st1, base, fuel)
  {
    hide Gen, Placed, WellFormed, Nesting, HasReturn, HasBreak, Space, Allowed, NoDead, Telling, Room, Left;
    SetParts(s, st, base, fuel);
    GenSteps(s, st, base, fuel);
    StackAfter(s, st, base, fuel);
    StepsInv(st, Gen(s, st, fuel).st, base, fuel);
  }

  lemma RoomPrefix(st: State, st1: State, base: nat, m: nat, n: nat)
    requires Room(st, base, m) && n <= m && |st1.stack| <= |st.stack| && st1.stack == st.stack[..|st1.stack|]
    ensures Room(st1, base, n)
  {
    hide Fine, Space;
  }

  lemma CoveredPrefix(stack: seq<Entry>, n: nat, r: seq<nat>)
    requires Covered(stack, r) && n <= |stack|
    ensures Covered(stack[..n], r)
  {
    hide WorthAt;
    forall d: nat | d < |r| ensures WorthAt(stack[..n], d) <= r[d] { WorthPrefix(stack, n, d); }
  }

  lemma LacksPrefix(stack: seq<Entry>, n: nat, r: seq<nat>, m: nat, m': nat)
    requires Lacks(stack, r, m) && n <= |stack| && m <= m'
    ensures Lacks(stack[..n], r, m')
  {
    hide WorthAt;
    var d: nat :| d < m && d < |r| && WorthAt(stack, d) < r[d];
    WorthPrefix(stack, n, d);
  }

  /** Exits that others still count on leave a gap. */
  lemma ExitLacks(s: Stmt, st: State, base: nat, fuel: nat, r: seq<nat>)
    requires Set(s, st, base, fuel) && !s.Defer? && |r| == st.depth + 1 && base <= |Gen(s, st, fuel).st.stack|
    requires (HasReturn(s) && Sum(r, 0) > 0) || (HasBreak(s) && st.loops != [] && Sum(r, Top(st.loops) + 1) > 0)
    ensures Lacks(Gen(s, st, fuel).st.stack[base..], r, st.depth + 1)
  {
    hide Gen, Set, WorthAt, HasReturn, HasBreak, Cut;
    OwnAfter(s, st, base, fuel);
    var own := Gen(s, st, fuel).st.stack[base..];
    if HasReturn(s) && Sum(r, 0) > 0 {
      var d := SumPositive(r, 0);
      WorthNoneAt(own, d);
    } else {
      var w := From(Top(st.loops) + 1);
      var d := SumPositive(r, Top(st.loops) + 1);
      SetInv(s, st, base, fuel);
      KeepIsPrefix(st, w);
      forall i | 0 <= i < |own| ensures own[i].depth != d { assert own[i] == st.stack[base + i]; }
      WorthNoneAt(own, d);
    }
  }

  lemma SetInv(s: Stmt, st: State, base: nat, fuel: nat)
    requires Set(s, st, base, fuel)
    ensures Inv(st)
  {
  }

  lemma AccountsAfter(s: Stmt, st: State, base: nat, fuel: nat, r: seq<nat>, ret: seq<Code>, brk: seq<Code>)
    requires Set(s, st, base, fuel) && !s.Defer? && Accounts(st, base, r, ret, brk)
    ensures Accounts(Gen(s, st, fuel).st, base, r, ret, brk)
  {
    hide Gen, Set, Covered, Runs, Sum;
    OwnAfter(s, st, base, fuel);
    var n := Left(HasReturn(s), HasBreak(s), st);
    CoveredPrefix(st.stack[base..], n - base, r);
  }
}
