/** Deferred statements: what the generator emits, and when, as it pushes defers on its one stack and emits them at
    the end of a scope and before a break, a continue or a return. */
module Defers {
  datatype Stmt =
    | Plain(action: nat)
    | Skip
    | Block(body: seq<Stmt>)
    | If(thn: Stmt, els: Stmt)
    | Loop(body1: Stmt)
    | Switch(clauses: seq<Stmt>)  // each clause is generated like a block
    | Defer(deferred: Stmt)
    | Break
    | Continue
    | Return

  datatype Jump = Breaks | Continues | Returns

  datatype Code =
    | Do(action: nat)
    | Branch(thn: seq<Code>, els: seq<Code>)
    | Repeat(body: seq<Code>)
    | Choose(clauses: seq<Arm>)
    | Exit(jump: Jump)

  datatype Arm = Arm(body: seq<Code>)

  datatype Entry = Entry(node: Stmt, depth: nat)

  /** The part of the generator's context that defers depend on: the stack, the scope depth, and the scope depth at
      which each enclosing loop or switch was entered. */
  datatype State = State(stack: seq<Entry>, depth: nat, loops: seq<nat>)

  /** Emitted code, the state after it, and whether generation came to an end. */
  datatype Out = Out(code: seq<Code>, st: State, ended: bool)

  const MAX_DEFERS := 128

  // ---- statements ----

  function Size(s: Stmt): (n: nat)
    ensures n > 0
  {
    match s
    case Plain(_) => 1
    case Skip => 1
    case Block(b) => 1 + SizeAll(b)
    case If(t, e) => 1 + Size(t) + Size(e)
    case Loop(b) => 1 + Size(b)
    case Switch(cs) => 1 + SizeAll(cs)
    case Defer(d) => 1 + Size(d)
    case Break => 1
    case Continue => 1
    case Return => 1
  }

  function SizeAll(b: seq<Stmt>): nat { if b == [] then 0 else 1 + Size(b[0]) + SizeAll(b[1..]) }

  /** A return outside deferred code. */
  predicate HasReturn(s: Stmt) {
    match s
    case Block(b) => exists i | 0 <= i < |b| :: HasReturn(b[i])
    case If(t, e) => HasReturn(t) || HasReturn(e)
    case Loop(b) => HasReturn(b)
    case Switch(cs) => exists i | 0 <= i < |cs| :: HasReturn(cs[i])
    case Return => true
    case _ => false
  }

  /** A break or continue that belongs to a loop or switch around the statement. */
  predicate HasBreak(s: Stmt) {
    match s
    case Block(b) => exists i | 0 <= i < |b| :: HasBreak(b[i])
    case If(t, e) => HasBreak(t) || HasBreak(e)
    case Break => true
    case Continue => true
    case _ => false
  }

  /** Deferred code must not leave the place it is emitted at. */
  predicate WellFormed(s: Stmt) {
    match s
    case Block(b) => forall i | 0 <= i < |b| :: WellFormed(b[i])
    case If(t, e) => WellFormed(t) && WellFormed(e)
    case Loop(b) => WellFormed(b)
    case Switch(cs) => forall i | 0 <= i < |cs| :: cs[i].Block? && WellFormed(cs[i])
    case Defer(d) => WellFormed(d) && !HasReturn(d) && !HasBreak(d)
    case _ => true
  }

  predicate Deferrable(d: Stmt) { WellFormed(d) && !HasReturn(d) && !HasBreak(d) }

  /** How deep defers are nested inside a statement. */
  function Nesting(s: Stmt): nat {
    match s
    case Block(b) => NestingAll(b)
    case If(t, e) => Max(Nesting(t), Nesting(e))
    case Loop(b) => Nesting(b)
    case Switch(cs) => NestingAll(cs)
    case Defer(d) => 1 + Nesting(d)
    case _ => 0
  }

  function NestingAll(b: seq<Stmt>): nat { if b == [] then 0 else Max(Nesting(b[0]), NestingAll(b[1..])) }

  function Max(a: nat, b: nat): nat { if a > b then a else b }

  // ---- the stack ----

  datatype Which = At(at: nat) | From(from: nat) | All

  predicate Match(w: Which, e: Entry) {
    match w
    case At(d) => e.depth == d
    case From(d) => e.depth >= d
    case All => true
  }

  /** What the compaction loop leaves. */
  function Keep(stack: seq<Entry>, w: Which): seq<Entry> {
    if stack == [] then [] else
      var last := stack[|stack| - 1];
      Keep(stack[..|stack| - 1], w) + if Match(w, last) then [] else [last]
  }

  function Top(loops: seq<nat>): nat
    requires loops != []
  {
    loops[|loops| - 1]
  }

  // ---- what the generator does ----

  /** The fuel bounds how deep emitted defers may emit defers themselves; GenSteps of DeferDiscipline says how much is enough. */
  function Gen(s: Stmt, st: State, fuel: nat): Out
    decreases fuel, Size(s), 0
  {
    match s
    case Plain(a) => Out([Do(a)], st, true)
    case Skip => Out([], st, true)
    case Block(b) => GenBlock(b, st, fuel)
    case If(t, e) =>
      var o1 := Gen(t, st, fuel);
      var o2 := Gen(e, o1.st, fuel);
      Out([Branch(o1.code, o2.code)], o2.st, o1.ended && o2.ended)
    case Loop(b) =>
      var o := Gen(b, EnterLoop(st), fuel);
      Out([Repeat(o.code)], o.st.(loops := st.loops), o.ended)
    case Switch(cs) =>
      var o := GenClauses(cs, EnterLoop(st), fuel);
      Out([Choose(o.code)], o.st.(loops := st.loops), o.ended)
    case Defer(d) =>
      Out([], if |st.stack| < MAX_DEFERS then st.(stack := st.stack + [Entry(d, st.depth)]) else st, true)
    case Break => GenJump(Breaks, st, fuel)
    case Continue => GenJump(Continues, st, fuel)
    case Return =>
      var o := Emit(st, All, fuel);
      Out(o.code + [Exit(Returns)], o.st, o.ended)
  }

  function EnterLoop(st: State): State { st.(loops := st.loops + [st.depth]) }

  function EnterBlock(st: State): State { st.(depth := st.depth + 1) }

  function GenJump(jump: Jump, st: State, fuel: nat): Out
    decreases fuel, 0, 2
  {
    if st.loops == [] then Out([], st, true)
    else
      var o := Emit(st, From(Top(st.loops) + 1), fuel);
      Out(o.code + [Exit(jump)], o.st, o.ended)
  }

  /** A compound statement, or a clause of a switch. */
  function GenBlock(b: seq<Stmt>, st: State, fuel: nat): Out
    decreases fuel, SizeAll(b), 2
  {
    var o1 := GenAll(b, EnterBlock(st), fuel);
    var o2 := Emit(o1.st, At(st.depth + 1), fuel);
    Out(o1.code + o2.code, o2.st.(depth := st.depth), o1.ended && o2.ended)
  }

  function GenAll(b: seq<Stmt>, st: State, fuel: nat): Out
    decreases fuel, SizeAll(b), 1
  {
    if b == [] then Out([], st, true)
    else
      var o1 := Gen(b[0], st, fuel);
      var o2 := GenAll(b[1..], o1.st, fuel);
      Out(o1.code + o2.code, o2.st, o1.ended && o2.ended)
  }

  datatype Clauses = Clauses(code: seq<Arm>, st: State, ended: bool)

  function GenClauses(cs: seq<Stmt>, st: State, fuel: nat): Clauses
    decreases fuel, SizeAll(cs), 1
  {
    if cs == [] then Clauses([], st, true)
    else
      var o1 := Gen(cs[0], st, fuel);
      var o2 := GenClauses(cs[1..], o1.st, fuel);
      Clauses([Arm(o1.code)] + o2.code, o2.st, o1.ended && o2.ended)
  }

  /** Emit the matching entries from the top down, then drop them. */
  function Emit(st: State, w: Which, fuel: nat): Out
    decreases fuel, 0, 1
  {
    var o := EmitBelow(st, |st.stack|, w, fuel);
    Out(o.code, o.st.(stack := Keep(o.st.stack, w)), o.ended)
  }

  function EmitBelow(st: State, i: nat, w: Which, fuel: nat): Out
    decreases fuel, 0, 0, i
  {
    if i == 0 then Out([], st, true)
    else if i > |st.stack| then Out([], st, false)
    else if Match(w, st.stack[i - 1]) then
      if fuel == 0 then Out([], st, false)
      else
        var o1 := Gen(st.stack[i - 1].node, st, fuel - 1);
        var o2 := EmitBelow(o1.st, i - 1, w, fuel);
        Out(o1.code + o2.code, o2.st, o1.ended && o2.ended)
    else EmitBelow(st, i - 1, w, fuel)
  }
}
