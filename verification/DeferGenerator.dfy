/** The generator's defer stack as it is kept: a fixed array and a count, emitted from the top and compacted in place. */
module DeferGenerator {
  import opened Defers
  import opened DeferDiscipline

  class Context {
    const deferStack: array<Entry>
    var deferCount: nat
    var scopeDepth: nat
    var loops: seq<nat>

    ghost predicate Valid()
      reads this
    {
      deferStack.Length == MAX_DEFERS && deferCount <= MAX_DEFERS
    }

    ghost function St(): State
      requires Valid()
      reads this, deferStack
    {
      State(deferStack[..deferCount], scopeDepth, loops)
    }

    constructor ()
      ensures Valid() && fresh(deferStack) && St() == State([], 0, [])
    {
      deferStack := new Entry[MAX_DEFERS](i => Entry(Skip, 0));
      deferCount, scopeDepth, loops := 0, 0, [];
    }

    /** Keep the entries that do not match, moved down over those that do. */
    method Compact(w: Which)
      requires Valid()
      modifies this`deferCount, deferStack
      ensures Valid() && St() == old(St()).(stack := Keep(old(St()).stack, w))
    {
      ghost var was := deferStack[..deferCount];
      var write: nat := 0;
      var read: nat := 0;
      while read < deferCount
        invariant write <= read <= deferCount && deferCount == old(deferCount)
        invariant deferStack[..write] == Keep(was[..read], w)
        invariant forall j | read <= j < deferCount :: deferStack[j] == was[j]
      {
        assert was[..read + 1][..read] == was[..read];
        if !Match(w, deferStack[read]) {
          deferStack[write] := deferStack[read];
          assert deferStack[..write + 1] == deferStack[..write] + [deferStack[write]];
          write := write + 1;
        }
        read := read + 1;
      }
      assert was[..read] == was;
      deferCount := write;
    }

    /** Generate the matching entries, top first. Generating one may push and emit further entries above it. */
    method EmitMatching(w: Which, fuel: nat) returns (code: seq<Code>, ended: bool)
      requires Valid()
      modifies this, deferStack
      ensures Valid() && var o := EmitBelow(old(St()), old(deferCount), w, fuel);
        code == o.code && ended == o.ended && St() == o.st
      decreases fuel, 0, 0
    {
      hide Gen, Match;
      code, ended := [], true;
      ghost var start := St();
      var i: nat := deferCount;
      while i > 0
        invariant Valid() && i <= |start.stack|
        invariant var o := EmitBelow(start, |start.stack|, w, fuel); var o1 := EmitBelow(St(), i, w, fuel);
          code + o1.code == o.code && (ended && o1.ended) == o.ended && o1.st == o.st
        decreases i
      {
        ghost var here := St();
        if i > deferCount {
          ended := false;
          return;
        }
        assert deferStack[i - 1] == here.stack[i - 1];
        if Match(w, deferStack[i - 1]) {
          if fuel == 0 {
            ended := false;
            return;
          }
          var c, e := GenStmt(deferStack[i - 1].node, fuel - 1);
          ghost var o2 := EmitBelow(St(), i - 1, w, fuel);
          assert code + (c + o2.code) == (code + c) + o2.code;
          code := code + c;
          ended := ended && e;
        }
        i := i - 1;
      }
    }

    /** The end of a scope. */
    method EmitAtDepth(depth: nat, fuel: nat) returns (code: seq<Code>, ended: bool)
      requires Valid()
      modifies this, deferStack
      ensures Valid() && var o := Emit(old(St()), At(depth), fuel); code == o.code && ended == o.ended && St() == o.st
      decreases fuel, 0, 1
    {
      code, ended := EmitMatching(At(depth), fuel);
      Compact(At(depth));
    }

    /** A break or continue. */
    method EmitFromDepth(min: nat, fuel: nat) returns (code: seq<Code>, ended: bool)
      requires Valid()
      modifies this, deferStack
      ensures Valid() && var o := Emit(old(St()), From(min), fuel); code == o.code && ended == o.ended && St() == o.st
      decreases fuel, 0, 1
    {
      code, ended := EmitMatching(From(min), fuel);
      Compact(From(min));
    }

    /** A return drops the whole stack. */
    method EmitAll(fuel: nat) returns (code: seq<Code>, ended: bool)
      requires Valid()
      modifies this, deferStack
      ensures Valid() && var o := Emit(old(St()), All, fuel); code == o.code && ended == o.ended && St() == o.st
      decreases fuel, 0, 1
    {
      code, ended := EmitMatching(All, fuel);
      KeepSplit(deferStack[..deferCount], 0, All);
      deferCount := 0;
    }

    method GenStmt(s: Stmt, fuel: nat) returns (code: seq<Code>, ended: bool)
      requires Valid()
      modifies this, deferStack
      ensures Valid() && var o := Gen(s, old(St()), fuel); code == o.code && ended == o.ended && St() == o.st
      decreases fuel, Size(s), 0
    {
      hide Emit, GenAll;
      match s {
        case Plain(a) => code, ended := [Do(a)], true;
        case Skip => code, ended := [], true;
        case Block(b) => code, ended := GenCompound(b, fuel);
        case If(t, e) =>
          var c1, e1 := GenStmt(t, fuel);
          var c2, e2 := GenStmt(e, fuel);
          code, ended := [Branch(c1, c2)], e1 && e2;
        case Loop(b) =>
          var saved := loops;
          loops := loops + [scopeDepth];
          var c, e := GenStmt(b, fuel);
          loops := saved;
          code, ended := [Repeat(c)], e;
        case Switch(cs) =>
          var saved := loops;
          loops := loops + [scopeDepth];
          var c, e := GenCases(cs, fuel);
          loops := saved;
          code, ended := [Choose(c)], e;
        case Defer(d) =>
          if deferCount < MAX_DEFERS {
            deferStack[deferCount] := Entry(d, scopeDepth);
            assert deferStack[..deferCount + 1] == old(deferStack[..deferCount]) + [Entry(d, scopeDepth)];
            deferCount := deferCount + 1;
          }
          code, ended := [], true;
        case Break => code, ended := GenExit(Breaks, fuel);
        case Continue => code, ended := GenExit(Continues, fuel);
        case Return =>
          code, ended := EmitAll(fuel);
          code := code + [Exit(Returns)];
      }
    }

    method GenExit(jump: Jump, fuel: nat) returns (code: seq<Code>, ended: bool)
      requires Valid()
      modifies this, deferStack
      ensures Valid() && var o := GenJump(jump, old(St()), fuel); code == o.code && ended == o.ended && St() == o.st
      decreases fuel, 0, 2
    {
      hide Emit;
      if loops == [] { return [], true; }
      code, ended := EmitFromDepth(Top(loops) + 1, fuel);
      code := code + [Exit(jump)];
    }

    method GenCompound(b: seq<Stmt>, fuel: nat) returns (code: seq<Code>, ended: bool)
      requires Valid()
      modifies this, deferStack
      ensures Valid() && var o := GenBlock(b, old(St()), fuel); code == o.code && ended == o.ended && St() == o.st
      decreases fuel, SizeAll(b), 2
    {
      hide Emit, GenAll;
      var depth := scopeDepth;
      scopeDepth := scopeDepth + 1;
      var c1, e1 := GenList(b, fuel);
      var c2, e2 := EmitAtDepth(depth + 1, fuel);
      scopeDepth := depth;
      code, ended := c1 + c2, e1 && e2;
    }

    method GenList(b: seq<Stmt>, fuel: nat) returns (code: seq<Code>, ended: bool)
      requires Valid()
      modifies this, deferStack
      ensures Valid() && var o := GenAll(b, old(St()), fuel); code == o.code && ended == o.ended && St() == o.st
      decreases fuel, SizeAll(b), 1
    {
      hide Gen;
      code, ended := [], true;
      ghost var start := St();
      var i := 0;
      assert b[0..] == b;
      while i < |b|
        invariant 0 <= i <= |b| && Valid()
        invariant SizeAll(b[i..]) <= SizeAll(b)
        invariant var o := GenAll(b, start, fuel); var o1 := GenAll(b[i..], St(), fuel);
          code + o1.code == o.code && (ended && o1.ended) == o.ended && o1.st == o.st
      {
        assert b[i..][0] == b[i] && b[i..][1..] == b[i + 1..];
        var c, e := GenStmt(b[i], fuel);
        ghost var o2 := GenAll(b[i + 1..], St(), fuel);
        assert code + (c + o2.code) == (code + c) + o2.code;
        code, ended := code + c, ended && e;
        i := i + 1;
      }
    }

    method GenCases(cs: seq<Stmt>, fuel: nat) returns (code: seq<Arm>, ended: bool)
      requires Valid()
      modifies this, deferStack
      ensures Valid() && var o := GenClauses(cs, old(St()), fuel); code == o.code && ended == o.ended && St() == o.st
      decreases fuel, SizeAll(cs), 1
    {
      hide Gen;
      code, ended := [], true;
      ghost var start := St();
      var i := 0;
      assert cs[0..] == cs;
      while i < |cs|
        invariant 0 <= i <= |cs| && Valid()
        invariant SizeAll(cs[i..]) <= SizeAll(cs)
        invariant var o := GenClauses(cs, start, fuel); var o1 := GenClauses(cs[i..], St(), fuel);
          code + o1.code == o.code && (ended && o1.ended) == o.ended && o1.st == o.st
      {
        assert cs[i..][0] == cs[i] && cs[i..][1..] == cs[i + 1..];
        var c, e := GenStmt(cs[i], fuel);
        ghost var o2 := GenClauses(cs[i + 1..], St(), fuel);
        assert code + ([Arm(c)] + o2.code) == (code + [Arm(c)]) + o2.code;
        code, ended := code + [Arm(c)], ended && e;
        i := i + 1;
      }
    }
  }
}
