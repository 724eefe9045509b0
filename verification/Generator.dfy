/** The generator as it works: one object whose blocks, builder position, loop stack and counters are updated in place.
    Every method is proved to take the state where the functions of Lower and Statements say. */
module Generator {
  import opened Words
  import opened Cfg
  import opened Lower
  import opened Statements
  import S = Source

  class Builder {
    var blocks: seq<Block>
    var cur: BlockId
    var regs: nat
    var temps: nat
    var loops: seq<LoopTarget>
    var fall: Target
    const checks: bool

    ghost function State(): (g: Gen)
      reads this
    {
      Gen(blocks, cur, regs, temps, loops, fall, checks)
    }

    ghost predicate Valid()
      reads this
    {
      cur < |blocks|
    }

    /** A function with an empty entry block. */
    constructor (checks: bool)
      ensures Valid() && State() == Gen([[]], 0, 0, 0, [], NoTarget, checks)
    {
      this.checks := checks;
      blocks, cur, regs, temps, loops, fall := [[]], 0, 0, 0, [], NoTarget;
    }

    // ---- the builder ----

    method Emit(i: Instr)
      requires Valid()
      modifies this`blocks
      ensures Valid() && State() == Lower.Emit(old(State()), i)
    {
      blocks := blocks[cur := blocks[cur] + [i]];
    }

    method Define(i: Instr) returns (r: Operand)
      requires Valid()
      modifies this`blocks, this`regs
      ensures Valid() && (State(), r) == Lower.Define(old(State()), i)
    {
      Emit(i);
      r, regs := Reg(regs), regs + 1;
    }

    method AppendBlock() returns (bb: BlockId)
      requires Valid()
      modifies this`blocks
      ensures Valid() && bb == |old(blocks)| && blocks == old(blocks) + [[]]
    {
      bb := |blocks|;
      blocks := blocks + [[]];
    }

    method AppendTwo() returns (a: BlockId, b: BlockId)
      requires Valid()
      modifies this`blocks
      ensures Valid() && State() == NewBlocks(old(State()), 2) && a == |old(blocks)| && b == a + 1 && |blocks| == a + 2
    {
      a := AppendBlock();
      b := AppendBlock();
      assert blocks == old(blocks) + Empties(2);
    }

    method AppendThree() returns (a: BlockId, b: BlockId, c: BlockId)
      requires Valid()
      modifies this`blocks
      ensures Valid() && State() == NewBlocks(old(State()), 3) && a == |old(blocks)| && b == a + 1 && c == a + 2 && |blocks| == a + 3
    {
      a, b := AppendTwo();
      c := AppendBlock();
      assert blocks == old(blocks) + Empties(3);
    }

    method PositionAtEnd(bb: BlockId)
      requires bb < |blocks|
      modifies this`cur
      ensures Valid() && State() == Move(old(State()), bb)
    {
      cur := bb;
    }

    /** Branch unless the current block has ended already. */
    method BranchIfOpen(bb: BlockId)
      requires Valid()
      modifies this`blocks
      ensures Valid() && State() == Leave(old(State()), bb)
    {
      if !(|blocks[cur]| > 0 && IsTerminator(blocks[cur][|blocks[cur]| - 1])) {
        Emit(Br(bb));
      }
    }

    // ---- conversions ----

    method TestZero(pred: Pred, v: Typed) returns (r: Operand)
      requires Valid() && Known(State(), v.op)
      modifies this`blocks, this`regs
      ensures Valid() && (State(), r) == Lower.TestZero(old(State()), pred, v)
    {
      r := Define(ICmp(regs, pred, v.op, Imm(0), v.width));
    }

    method Truth(v: Typed) returns (r: Operand)
      requires Valid() && Known(State(), v.op)
      modifies this`blocks, this`regs
      ensures Valid() && (State(), r) == Lower.Truth(old(State()), v)
    {
      if v.width == 1 {
        r := v.op;
      } else {
        r := TestZero(Ne, v);
      }
    }

    method Resize(v: Typed, width: nat) returns (r: Operand)
      requires Valid() && Known(State(), v.op)
      modifies this`blocks, this`regs
      ensures Valid() && (State(), r) == Lower.Resize(old(State()), v, width)
    {
      r := v.op;
      if v.width != width {
        r := Define(Cast(regs, if width < v.width then Trunc else ZExt, v.op, v.width, width));
      }
    }

    method Coerce(v: Typed, width: nat) returns (r: Operand)
      requires Valid() && Known(State(), v.op)
      modifies this`blocks, this`regs
      ensures Valid() && (State(), r) == Lower.Coerce(old(State()), v, width)
    {
      r := v.op;
      if v.width != width {
        r := Define(Cast(regs, if width < v.width then Trunc else SExt, v.op, v.width, width));
      }
    }

    // ---- expressions ----

    method BoundsCheck(v: Typed, len: nat) returns (index: Operand)
      requires Valid() && Known(State(), v.op)
      modifies this`blocks, this`regs, this`cur
      ensures Valid() && (State(), index) == Lower.BoundsCheck(old(State()), v, len)
    {
      index := v.op;
      if checks {
        index := Resize(v, 64);
        var oob := Define(ICmp(regs, Uge, index, Imm(len), 64));
        ghost var g1 := State();
        var cont, trap := AppendTwo();
        Emit(CondBr(oob, trap, cont));
        PositionAtEnd(trap);
        Emit(CallTrap);
        Emit(Unreachable);
        PositionAtEnd(cont);
      }
    }

    /** Leave for merge and select between the value of the forking block and the one computed since.
        The second predecessor is read off the builder here, after the right operand. */
    method Join(merge: BlockId, v0: Operand, from0: BlockId, v1: Operand) returns (r: Operand)
      requires Valid() && merge < |blocks|
      modifies this`blocks, this`regs, this`cur
      ensures Valid() && (State(), r) == Lower.Join(old(State()), merge, v0, from0, v1)
    {
      Emit(Br(merge));
      var from1 := cur;
      PositionAtEnd(merge);
      r := Define(Phi(regs, [(v0, from0), (v1, from1)]));
    }

    method GenExpr(e: S.Expr) returns (v: Typed)
      requires Valid()
      modifies this`blocks, this`regs, this`cur, this`temps
      ensures Valid() && (State(), v) == LowerExpr(e, old(State()))
      decreases e, 1
    {
      hide LowerUnary, LowerBinary, LowerLogical, LowerOrElse, LowerTernary, LowerIndex, LowerMember;
      match e
      case IntLit(n) => v := Typed(Imm(n), 64);
      case BoolLit(b) => v := Typed(Imm(Flag(b)), 1);
      case Var(x, ty) =>
        var r := Define(Load(regs, Slot(x, S.WidthOf(ty)), Imm(0)));
        v := Typed(r, S.WidthOf(ty));
      case Negate(_) => v := GenUnary(e);
      case Complement(_) => v := GenUnary(e);
      case Not(_) => v := GenUnary(e);
      case Arith(_, _, _) => v := GenBinary(e);
      case Rel(_, _, _) => v := GenBinary(e);
      case Logical(_, _, _) => v := GenShortCircuit(e);
      case OrElse(_, _) => v := GenOrElse(e);
      case Ternary(_, _, _) => v := GenTernary(e);
      case Index(_, _, _) => v := GenIndex(e);
      case Member(_, _, _, _) => v := GenIn(e);
    }

    method GenUnary(e: S.Expr) returns (v: Typed)
      requires Valid() && (e.Negate? || e.Complement? || e.Not?)
      modifies this`blocks, this`regs, this`cur, this`temps
      ensures Valid() && (State(), v) == LowerUnary(e, old(State()))
      decreases e, 0
    {
      var a := GenExpr(e.e);
      if e.Not? {
        var z := TestZero(Eq, a);
        var r := Resize(Typed(z, 1), a.width);
        v := Typed(r, a.width);
      } else {
        var r := Define(if e.Negate? then Binary(regs, Sub, Imm(0), a.op) else Binary(regs, Xor, a.op, Imm(WORD - 1)));
        v := Typed(r, a.width);
      }
    }

    method GenBinary(e: S.Expr) returns (v: Typed)
      requires Valid() && (e.Arith? || e.Rel?)
      modifies this`blocks, this`regs, this`cur, this`temps
      ensures Valid() && (State(), v) == LowerBinary(e, old(State()))
      decreases e, 0
    {
      hide LowerExpr;
      var a := GenExpr(e.l);
      var b0 := GenExpr(e.r);
      var b := Coerce(b0, a.width);
      var r := Define(if e.Arith? then Binary(regs, MachineOp(e.op), a.op, b)
                      else ICmp(regs, MachinePred(e.rel), a.op, b, a.width));
      v := Typed(r, if e.Arith? then a.width else 1);
    }

    method GenShortCircuit(e: S.Expr) returns (v: Typed)
      requires Valid() && e.Logical?
      modifies this`blocks, this`regs, this`cur, this`temps
      ensures Valid() && (State(), v) == LowerLogical(e, old(State()))
      decreases e, 0
    {
      hide LowerExpr, Lower.Truth, Lower.Resize, Lower.Join, S.Rep;
      var a := GenExpr(e.l);
      var lhs := Truth(a);
      var entry := cur;
      ghost var g2 := State();
      var rhs, merge := AppendTwo();
      if e.isAnd { Emit(CondBr(lhs, rhs, merge)); } else { Emit(CondBr(lhs, merge, rhs)); }
      PositionAtEnd(rhs);
      var b := GenExpr(e.r);
      var rhsBool := Truth(b);
      var phi := Join(merge, Imm(Flag(!e.isAnd)), entry, rhsBool);
      var r := Resize(Typed(phi, 1), a.width);
      v := Typed(r, a.width);
    }

    method GenOrElse(e: S.Expr) returns (v: Typed)
      requires Valid() && e.OrElse?
      modifies this`blocks, this`regs, this`cur, this`temps
      ensures Valid() && (State(), v) == LowerOrElse(e, old(State()))
      decreases e, 0
    {
      hide LowerExpr, Lower.TestZero, Lower.Join;
      var a := GenExpr(e.l);
      var isZero := TestZero(Eq, a);
      var entry := cur;
      ghost var g2 := State();
      var rhs, merge := AppendTwo();
      Emit(CondBr(isZero, rhs, merge));
      PositionAtEnd(rhs);
      var b := GenExpr(e.r);
      var phi := Join(merge, a.op, entry, b.op);
      v := Typed(phi, a.width);
    }

    method GenTernary(e: S.Expr) returns (v: Typed)
      requires Valid() && e.Ternary?
      modifies this`blocks, this`regs, this`cur, this`temps
      ensures Valid() && (State(), v) == LowerTernary(e, old(State()))
      decreases e, 0
    {
      hide LowerExpr, Lower.TestZero, Lower.Join, S.Rep;
      var c := GenExpr(e.c);
      var truth := TestZero(Ne, c);
      ghost var g2 := State();
      var thn, els, merge := AppendThree();
      Emit(CondBr(truth, thn, els));
      PositionAtEnd(thn);
      assert State() == Fork3(g2, truth);
      hide Lower.Emit, Fork3;
      var t := GenExpr(e.t);
      Emit(Br(merge));
      var thenEnd := cur;
      PositionAtEnd(els);
      var f := GenExpr(e.f);
      var phi := Join(merge, t.op, thenEnd, f.op);
      v := Typed(phi, t.width);
    }

    method GenIndex(e: S.Expr) returns (v: Typed)
      requires Valid() && e.Index?
      modifies this`blocks, this`regs, this`cur, this`temps
      ensures Valid() && (State(), v) == LowerIndex(e, old(State()))
      decreases e, 0
    {
      hide LowerExpr, Lower.BoundsCheck;
      var i := GenExpr(e.i);
      var index := BoundsCheck(i, e.len);
      var r := Define(Load(regs, Slot(e.arr, 64), index));
      v := Typed(r, 64);
    }

    method GenIn(e: S.Expr) returns (v: Typed)
      requires Valid() && e.Member?
      modifies this`blocks, this`regs, this`cur, this`temps
      ensures Valid() && (State(), v) == LowerMember(e, old(State()))
      decreases e, 0
    {
      hide LowerExpr, Lower.Search;
      var a := GenExpr(e.e);
      var r := GenSearch(a.op, e.arr, e.len, e.negated);
      v := Typed(r, 64);
    }

    /** The loop that searches an array: append its blocks, enter it, and fill it. */
    method GenSearch(v: Operand, arr: nat, len: nat, negated: bool) returns (r: Operand)
      requires Valid()
      modifies this`blocks, this`regs, this`cur, this`temps
      ensures Valid() && (State(), r) == Lower.Search(old(State()), v, arr, len, negated)
    {
      hide Lower.Search, SearchBlocks, SearchTail;
      var counter := Temp(temps);
      temps := temps + 1;
      ghost var before, r0 := blocks, regs;
      var loop := |blocks|;
      blocks := blocks + [[], [], [], [], [], []];
      GenSearchEntry(counter, loop);
      ghost var start := before[cur := before[cur] + [Alloca(counter, 1), Store(Imm(0), counter, Imm(0), 64), Br(loop)]];
      assert blocks == start + [[], [], [], [], [], []];
      ghost var bs := SearchBlocks(loop, r0, counter, v, arr, len, negated);
      SearchParts(loop, r0, counter, v, arr, len, negated);
      GenSearchLoop(start, v, arr, len, negated, counter, loop);
      PositionAtEnd(loop + 5);
      r := GenSearchResult(loop + 3, loop + 4, negated);
      SearchState(old(State()), v, arr, len, negated, State(), r, bs);
    }

    /** Set the counter to zero and enter the loop. */
    method GenSearchEntry(counter: Region, loop: BlockId)
      requires Valid()
      modifies this`blocks
      ensures Valid() && blocks == old(blocks)[cur := old(blocks)[cur] + [Alloca(counter, 1), Store(Imm(0), counter, Imm(0), 64), Br(loop)]]
    {
      Emit(Alloca(counter, 1));
      Emit(Store(Imm(0), counter, Imm(0), 64));
      Emit(Br(loop));
      assert blocks[cur] == old(blocks)[cur] + [Alloca(counter, 1), Store(Imm(0), counter, Imm(0), 64), Br(loop)];
    }

    /** Fill the five blocks before the merge block. */
    method GenSearchLoop(ghost start: seq<Block>, v: Operand, arr: nat, len: nat, negated: bool, counter: Region, loop: BlockId)
      requires |start| == loop && blocks == start + [[], [], [], [], [], []]
      modifies this`blocks, this`regs, this`cur
      ensures Valid() && regs == old(regs) + 5
      ensures var bs := SearchBlocks(loop, old(regs), counter, v, arr, len, negated);
        blocks == start + [bs[0], bs[1], bs[2], bs[3], bs[4], []]
    {
      hide SearchBlocks;
      ghost var bs := SearchBlocks(loop, regs, counter, v, arr, len, negated);
      SearchParts(loop, regs, counter, v, arr, len, negated);
      var i := GenSearchTest(loop, counter, len, loop + 1, loop + 4);
      assert blocks == start + [bs[0], [], [], [], [], []];
      GenSearchCompare(loop + 1, v, arr, i, loop + 3, loop + 2);
      assert blocks == start + [bs[0], bs[1], [], [], [], []];
      GenSearchNext(loop + 2, counter, i, loop);
      assert blocks == start + [bs[0], bs[1], bs[2], [], [], []];
      GenSearchEnds(start + [bs[0], bs[1], bs[2]], loop + 3, loop + 5);
      assert blocks == start + [bs[0], bs[1], bs[2], bs[3], bs[4], []];
    }

    /** Both ways out of the loop lead to the merge block. */
    method GenSearchEnds(ghost start: seq<Block>, found: BlockId, merge: BlockId)
      requires |start| == found && merge == found + 2 && blocks == start + [[], [], []]
      modifies this`blocks, this`cur
      ensures Valid() && blocks == start + [[Br(merge)], [Br(merge)], []]
    {
      PositionAtEnd(found);
      Emit(Br(merge));
      assert blocks[cur] == [Br(merge)];
      assert blocks == start + [[Br(merge)], [], []];
      PositionAtEnd(found + 1);
      Emit(Br(merge));
      assert blocks[cur] == [Br(merge)];
      assert blocks == start + [[Br(merge)], [Br(merge)], []];
    }

    /** Read the counter and test it against the length. */
    method GenSearchTest(bb: BlockId, counter: Region, len: nat, body: BlockId, notFound: BlockId) returns (i: Operand)
      requires bb < |blocks| && blocks[bb] == []
      modifies this`blocks, this`regs, this`cur
      ensures Valid() && cur == bb && regs == old(regs) + 2 && i == Reg(old(regs))
      ensures blocks == old(blocks)[bb := [Load(old(regs), counter, Imm(0)), ICmp(old(regs) + 1, Slt, i, Imm(len), 64), CondBr(Reg(old(regs) + 1), body, notFound)]]
    {
      PositionAtEnd(bb);
      i := Define(Load(regs, counter, Imm(0)));
      var more := Define(ICmp(regs, Slt, i, Imm(len), 64));
      Emit(CondBr(more, body, notFound));
      assert blocks[bb] == [Load(old(regs), counter, Imm(0)), ICmp(old(regs) + 1, Slt, i, Imm(len), 64), CondBr(more, body, notFound)];
    }

    /** Load the element and compare it with the sought value. */
    method GenSearchCompare(bb: BlockId, v: Operand, arr: nat, i: Operand, found: BlockId, incr: BlockId)
      requires bb < |blocks| && blocks[bb] == []
      modifies this`blocks, this`regs, this`cur
      ensures Valid() && cur == bb && regs == old(regs) + 2
      ensures blocks == old(blocks)[bb := [Load(old(regs), Slot(arr, 64), i), ICmp(old(regs) + 1, Eq, v, Reg(old(regs)), 64), CondBr(Reg(old(regs) + 1), found, incr)]]
    {
      PositionAtEnd(bb);
      var elem := Define(Load(regs, Slot(arr, 64), i));
      var same := Define(ICmp(regs, Eq, v, elem, 64));
      Emit(CondBr(same, found, incr));
      assert blocks[bb] == [Load(old(regs), Slot(arr, 64), i), ICmp(old(regs) + 1, Eq, v, elem, 64), CondBr(same, found, incr)];
    }

    /** Add one to the counter and test again. */
    method GenSearchNext(bb: BlockId, counter: Region, i: Operand, loop: BlockId)
      requires bb < |blocks| && blocks[bb] == []
      modifies this`blocks, this`regs, this`cur
      ensures Valid() && cur == bb && regs == old(regs) + 1
      ensures blocks == old(blocks)[bb := [Binary(old(regs), Add, i, Imm(1)), Store(Reg(old(regs)), counter, Imm(0), 64), Br(loop)]]
    {
      PositionAtEnd(bb);
      var next := Define(Binary(regs, Add, i, Imm(1)));
      Emit(Store(next, counter, Imm(0), 64));
      Emit(Br(loop));
      assert blocks[bb] == [Binary(old(regs), Add, i, Imm(1)), Store(next, counter, Imm(0), 64), Br(loop)];
    }

    /** The merge block of the search. */
    method GenSearchResult(found: BlockId, notFound: BlockId, negated: bool) returns (r: Operand)
      requires Valid() && blocks[cur] == []
      modifies this`blocks, this`regs
      ensures Valid() && regs == old(regs) + (if negated then 3 else 2) && r == Reg(regs - 1)
      ensures blocks == old(blocks)[cur := SearchTail(old(regs), found, notFound, negated)]
    {
      ghost var before := blocks;
      r := Define(Phi(regs, [(Imm(1), found), (Imm(0), notFound)]));
      if negated {
        r := Define(Binary(regs, Xor, r, Imm(1)));
      }
      r := Define(Cast(regs, ZExt, r, 1, 64));
      assert blocks[cur] == SearchTail(old(regs), found, notFound, negated);
    }

    // ---- statements ----

    method PushLoop(t: LoopTarget)
      modifies this`loops
      ensures State() == Push(old(State()), t)
    {
      if |loops| < MAX_LOOP_DEPTH {
        loops := loops + [t];
      }
    }

    method PopLoop()
      modifies this`loops
      ensures State() == Pop(old(State()))
    {
      if |loops| > 0 {
        loops := loops[..|loops| - 1];
      }
    }

    method GenStmt(st: S.Stmt)
      requires Valid()
      modifies this
      ensures Valid() && State() == LowerStmt(st, old(State()))
      decreases st, 1
    {
      hide LowerExpr, LowerAll, LowerIf, LowerIfElse, LowerFor, LowerForRange, LowerSwitch, LowerAssignElem;
      match st
      case ExprStmt(e) => var _ := GenExpr(e);
      case Declare(x, ty, e) => GenDeclare(x, ty, e);
      case Assign(x, ty, how, e) =>
        var v := GenExpr(e);
        var w := GenUpdate(how, Slot(x, S.WidthOf(ty)), Imm(0), v);
        Emit(Store(w, Slot(x, S.WidthOf(ty)), Imm(0), v.width));
      case AssignElem(_, _, _, _, _) => GenAssignElem(st);
      case Block(body) => GenAll(body);
      case If(_, _) => GenIf(st);
      case IfElse(_, _, _) => GenIfElse(st);
      case For(_, _) => GenFor(st);
      case ForRange(_, _, _, _, _) => GenForRange(st);
      case Switch(_, _) => GenSwitch(st);
      case Break =>
        if |loops| > 0 {
          Emit(Br(loops[|loops| - 1].breakBb));
        }
      case Continue =>
        if |loops| > 0 && loops[|loops| - 1].continueBb.To? {
          Emit(Br(loops[|loops| - 1].continueBb.bb));
        }
      case Fallthrough =>
        if fall.To? {
          Emit(Br(fall.bb));
        }
      case Return(e, ty) =>
        var v := GenExpr(e);
        var w := Coerce(v, S.WidthOf(ty));
        Emit(Ret(w));
      case ReturnVoid => Emit(RetVoid);
    }

    method GenAll(ss: S.Stmts)
      requires Valid()
      modifies this
      ensures Valid() && State() == LowerAll(ss, old(State()))
      decreases ss, 1
    {
      match ss
      case Nil =>
      case Cons(st, rest) =>
        GenStmt(st);
        GenAll(rest);
    }

    method GenDeclare(x: nat, ty: S.Ty, e: S.Expr)
      requires Valid()
      modifies this
      ensures Valid() && State() == LowerStmt(S.Declare(x, ty, e), old(State()))
    {
      hide LowerExpr, Lower.Coerce;
      var slot, width := Slot(x, S.WidthOf(ty)), S.WidthOf(ty);
      Emit(Alloca(slot, 1));
      Emit(Store(Imm(0), slot, Imm(0), width));
      assert blocks[cur] == old(blocks)[cur] + [Alloca(slot, 1), Store(Imm(0), slot, Imm(0), width)];
      assert State() == EmitAll(old(State()), [Alloca(slot, 1), Store(Imm(0), slot, Imm(0), width)], 0);
      var v := GenExpr(e);
      var w := Coerce(v, width);
      Emit(Store(w, slot, Imm(0), width));
    }

    method GenUpdate(how: S.AssignOp, region: Region, index: Operand, v: Typed) returns (w: Operand)
      requires Valid() && Known(State(), v.op)
      modifies this`blocks, this`regs
      ensures Valid() && (State(), w) == Update(old(State()), how, region, index, v)
    {
      w := v.op;
      if how.Compound? {
        var was := Define(Load(regs, region, index));
        w := Define(Binary(regs, MachineOp(how.op), was, v.op));
        ghost var ins := [Load(old(regs), region, index), Binary(old(regs) + 1, MachineOp(how.op), was, v.op)];
        assert blocks[cur] == old(blocks)[cur] + ins;
        assert State() == EmitAll(old(State()), ins, 2);
      }
    }

    method GenAssignElem(st: S.Stmt)
      requires Valid() && st.AssignElem?
      modifies this
      ensures Valid() && State() == LowerAssignElem(st, old(State()))
    {
      hide LowerExpr, Lower.BoundsCheck, Update;
      var v := GenExpr(st.e);
      var i := GenExpr(st.i);
      var index := BoundsCheck(i, st.len);
      var w := GenUpdate(st.how, Slot(st.arr, 64), index, v);
      Emit(Store(w, Slot(st.arr, 64), index, v.width));
    }

    method GenIf(st: S.Stmt)
      requires Valid() && st.If?
      modifies this
      ensures Valid() && State() == LowerIf(st, old(State()))
      decreases st, 0
    {
      hide LowerExpr, Lower.Truth, LowerStmt, Leave;
      var c := GenExpr(st.c);
      var b := Truth(c);
      ghost var g2 := State();
      var thn, merge := AppendTwo();
      Emit(CondBr(b, thn, merge));
      PositionAtEnd(thn);
      assert State() == Fork(g2, b, true);
      GenStmt(st.thn);
      BranchIfOpen(merge);
      PositionAtEnd(merge);
    }

    method GenIfElse(st: S.Stmt)
      requires Valid() && st.IfElse?
      modifies this
      ensures Valid() && State() == LowerIfElse(st, old(State()))
      decreases st, 0
    {
      hide LowerExpr, Lower.Truth, LowerStmt, Leave;
      var c := GenExpr(st.c);
      var b := Truth(c);
      ghost var g2 := State();
      var thn, els, merge := AppendThree();
      Emit(CondBr(b, thn, els));
      PositionAtEnd(thn);
      assert State() == Fork3(g2, b);
      hide Fork3;
      GenStmt(st.thn);
      BranchIfOpen(merge);
      PositionAtEnd(els);
      GenStmt(st.els);
      BranchIfOpen(merge);
      PositionAtEnd(merge);
    }

    method GenFor(st: S.Stmt)
      requires Valid() && st.For?
      modifies this
      ensures Valid() && State() == LowerFor(st, old(State()))
      decreases st, 0
    {
      hide LowerExpr, Lower.Truth, LowerAll, Leave, Push, Pop, LowerTest;
      ghost var g := State();
      var cond, body, end := AppendThree();
      PushLoop(LoopTarget(To(cond), end));
      Emit(Br(cond));
      PositionAtEnd(cond);
      assert State() == EnterLoop(g, 3, LoopTarget(To(cond), end));
      GenTest(st.cond, body, end);
      PositionAtEnd(body);
      assert State() == ForHead(st.cond, g);
      GenAll(st.body);
      BranchIfOpen(cond);
      PopLoop();
      PositionAtEnd(end);
    }

    method GenTest(cond: S.MaybeExpr, body: BlockId, end: BlockId)
      requires Valid()
      modifies this`blocks, this`regs, this`cur, this`temps
      ensures Valid() && State() == LowerTest(cond, old(State()), body, end)
    {
      hide LowerExpr, Lower.Truth;
      if cond.TheExpr? {
        var c := GenExpr(cond.e);
        var b := Truth(c);
        Emit(CondBr(b, body, end));
      } else {
        Emit(Br(body));
      }
    }

    method GenBounds(lo: S.Expr, hi: S.Expr, inclusive: bool) returns (low: Operand, high: Operand)
      requires Valid()
      modifies this`blocks, this`regs, this`cur, this`temps
      ensures Valid() && (State(), low, high) == LowerBounds(lo, hi, inclusive, old(State()))
    {
      hide LowerExpr, LowerBounds, StorePair;
      BoundsAre(lo, hi, inclusive, State());
      var l := GenExpr(lo);
      var h := GenExpr(hi);
      low, high := GenStorePair(l.op, h.op, inclusive);
    }

    /** Build the range's pair of bounds, store it, and read the bounds back. */
    method GenStorePair(l: Operand, h: Operand, inclusive: bool) returns (low: Operand, high: Operand)
      requires Valid()
      modifies this`blocks, this`regs, this`temps
      ensures Valid() && (State(), low, high) == StorePair(old(State()), l, h, inclusive)
    {
      hide PairCode, StorePair, EmitAll;
      var pair := Temp(temps);
      temps := temps + 1;
      ghost var g := State();
      PairParts(pair, regs, l, h);
      PairIs(old(State()), l, h, inclusive);
      GenPair(Alloca(pair, 2), Store(l, pair, Imm(0), 64));
      ghost var ins := [Alloca(pair, 2), Store(l, pair, Imm(0), 64)];
      var end := h;
      if inclusive {
        end := Define(Binary(regs, Add, h, Imm(1)));
        EmitAfter(g, ins, Binary(g.regs, Add, h, Imm(1)));
        ins := ins + [Binary(g.regs, Add, h, Imm(1))];
      }
      ghost var r, g1 := regs, State();
      ghost var tail := [Store(end, pair, Imm(1), 64), Load(r, pair, Imm(0)), Load(r + 1, pair, Imm(1))];
      low, high := GenPairTail(pair, end);
      EmitTwice(g, ins, r - g.regs, tail, 2);
      assert ins + tail == PairCode(pair, g.regs, l, h, inclusive);
    }

    method GenPairTail(pair: Region, end: Operand) returns (low: Operand, high: Operand)
      requires Valid()
      modifies this`blocks, this`regs
      ensures Valid() && low == Reg(old(regs)) && high == Reg(old(regs) + 1)
      ensures State() == EmitAll(old(State()), [Store(end, pair, Imm(1), 64), Load(old(regs), pair, Imm(0)), Load(old(regs) + 1, pair, Imm(1))], 2)
    {
      Emit(Store(end, pair, Imm(1), 64));
      low := Define(Load(regs, pair, Imm(0)));
      high := Define(Load(regs, pair, Imm(1)));
      assert blocks[cur] == old(blocks)[cur] + [Store(end, pair, Imm(1), 64), Load(old(regs), pair, Imm(0)), Load(old(regs) + 1, pair, Imm(1))];
    }

    method GenForRange(st: S.Stmt)
      requires Valid() && st.ForRange?
      modifies this
      ensures Valid() && State() == LowerForRange(st, old(State()))
      decreases st, 0
    {
      hide LowerBounds, LowerAll, Leave, Push, Pop, RangeTest, RangeStep, RangeHead;
      var x := Slot(st.x, 64);
      var low, high := GenBounds(st.lo, st.hi, st.inclusive);
      ghost var g1 := State();
      var cond, inc, end := GenRangeHead(x, low, high);
      GenAll(st.body);
      BranchIfOpen(inc);
      PositionAtEnd(inc);
      GenRangeStep(x, cond);
      PopLoop();
      PositionAtEnd(end);
    }

    /** Append the loop's blocks, declare its variable, and test it; go on in the body. */
    method GenRangeHead(x: Region, low: Operand, high: Operand) returns (cond: BlockId, inc: BlockId, end: BlockId)
      requires Valid()
      modifies this
      ensures Valid() && State() == RangeHead(old(State()), x, low, high)
      ensures cond == |old(blocks)| && inc == cond + 2 && end == cond + 3
    {
      hide EnterRange, RangeTest;
      var body;
      cond, body, inc, end := GenRangeEnter(x, low);
      GenRangeTest(x, high, body, end);
      PositionAtEnd(body);
    }

    /** The loop's four blocks, its targets and its variable, up to the block of the test. */
    method GenRangeEnter(x: Region, low: Operand) returns (cond: BlockId, body: BlockId, inc: BlockId, end: BlockId)
      requires Valid()
      modifies this
      ensures Valid() && cond == |old(blocks)| && body == cond + 1 && inc == cond + 2 && end == cond + 3
      ensures State() == EnterRange(old(State()), x, low, LoopTarget(To(inc), end))
    {
      hide Push, Lower.Emit;
      ghost var g := State();
      cond, body := AppendTwo();
      inc, end := AppendTwo();
      assert State() == NewBlocks(g, 4);
      PushLoop(LoopTarget(To(inc), end));
      GenPair(Alloca(x, 1), Store(low, x, Imm(0), 64));
      Emit(Br(cond));
      PositionAtEnd(cond);
    }

    method GenPair(i: Instr, j: Instr)
      requires Valid()
      modifies this`blocks
      ensures Valid() && State() == EmitAll(old(State()), [i, j], 0)
    {
      Emit(i);
      Emit(j);
      assert blocks[cur] == old(blocks)[cur] + [i, j];
    }

    method GenRangeTest(x: Region, high: Operand, body: BlockId, end: BlockId)
      requires Valid()
      modifies this`blocks, this`regs
      ensures Valid() && State() == RangeTest(old(State()), x, high, body, end)
    {
      var i := Define(Load(regs, x, Imm(0)));
      var more := Define(ICmp(regs, Slt, i, high, 64));
      assert blocks[cur] == old(blocks)[cur] + [Load(old(regs), x, Imm(0)), ICmp(old(regs) + 1, Slt, i, high, 64)];
      Emit(CondBr(more, body, end));
    }

    method GenRangeStep(x: Region, cond: BlockId)
      requires Valid()
      modifies this`blocks, this`regs
      ensures Valid() && State() == RangeStep(old(State()), x, cond)
    {
      var i := Define(Load(regs, x, Imm(0)));
      var next := Define(Binary(regs, Add, i, Imm(1)));
      Emit(Store(next, x, Imm(0), 64));
      assert blocks[cur] == old(blocks)[cur] + [Load(old(regs), x, Imm(0)), Binary(old(regs) + 1, Add, i, Imm(1)), Store(next, x, Imm(0), 64)];
      Emit(Br(cond));
    }

    /** A switch: append a block for every clause, then go through the clauses in order. */
    method GenSwitch(st: S.Stmt)
      requires Valid() && st.Switch?
      modifies this
      ensures Valid() && State() == LowerSwitch(st, old(State()))
      decreases st, 0
    {
      hide LowerExpr, LowerCases, Push, Pop;
      var v := GenExpr(st.e);
      ghost var g1 := State();
      var end := AppendBlock();
      assert blocks == NewBlocks(g1, 1).blocks;
      assert State() == NewBlocks(g1, 1);
      PushLoop(LoopTarget(NoTarget, end));
      GenClauseBlocks(st.cases, end, g1);
      GenClauses(st.cases, end + 1, end, v);
      PopLoop();
      PositionAtEnd(end);
    }

    method GenClauseBlocks(cases: S.Cases, end: BlockId, ghost g: Gen)
      requires Valid() && Ok(g) && end == |g.blocks|
      requires State() == Push(NewBlocks(g, 1), LoopTarget(NoTarget, end))
      modifies this`blocks
      ensures Valid() && State() == SwitchHead(cases, g)
    {
      ghost var h := State();
      var rest := cases;
      while !rest.NoCase?
        invariant Valid() && State() == h.(blocks := g.blocks + Empties(1 + CountClauses(cases) - CountClauses(rest)))
        invariant CountClauses(rest) <= CountClauses(cases)
        decreases CountClauses(rest)
      {
        ghost var k := 1 + CountClauses(cases) - CountClauses(rest);
        var _ := AppendBlock();
        assert Empties(k) + [[]] == Empties(k + 1);
        rest := if rest.Case? then rest.rest else S.NoCase;
      }
    }

    /** The chain of comparisons and bodies. */
    method GenClauses(cases: S.Cases, first: BlockId, end: BlockId, v: Typed)
      requires Valid() && end < |blocks| && first + CountClauses(cases) <= |blocks|
      modifies this
      ensures Valid() && State() == LowerCases(cases, first, end, v, old(State()))
      decreases cases, 1
    {
      hide LowerAll, LowerClause, Leave;
      var rest := cases;
      var b: nat := first;
      while rest.Case?
        invariant Valid() && end < |blocks| && b + CountClauses(rest) <= |blocks|
        invariant LowerCases(rest, b, end, v, State()) == LowerCases(cases, first, end, v, old(State()))
        invariant rest == cases || rest < cases
        decreases rest
      {
        GenClause(rest, b, end, v);
        rest, b := rest.rest, b + 1;
      }
      if rest.Default? {
        PositionAtEnd(b);
        GenAll(rest.body);
        BranchIfOpen(end);
      }
    }

    /** One comparison, and the body it guards with the next body as the fallthrough target. */
    method GenClause(cases: S.Cases, b: BlockId, end: BlockId, v: Typed)
      requires Valid() && cases.Case? && end < |blocks| && b + CountClauses(cases) <= |blocks|
      modifies this
      ensures Valid() && State() == LowerClause(cases, b, end, v, old(State()))
      decreases cases, 0
    {
      hide LowerAll, Leave, LowerExpr;
      var w := GenExpr(cases.value);
      var miss := BodyBlock(cases.rest, b + 1, end);
      ghost var g1 := State();
      if cases.rest.Case? {
        miss := AppendBlock();
        assert State() == NewBlocks(g1, 1);
      }
      var eq := Define(ICmp(regs, Eq, v.op, w.op, v.width));
      Emit(CondBr(eq, b, miss));
      PositionAtEnd(b);
      fall := To(BodyBlock(cases.rest, b + 1, end));
      assert (State(), miss) == ClauseStart(cases, b, end, v, old(State()));
      hide ClauseStart;
      GenAll(cases.body);
      BranchIfOpen(end);
      fall := NoTarget;
      PositionAtEnd(miss);
    }

    /** A whole procedure, with an implicit return if control can reach its end. */
    method GenProcedure(body: S.Stmts, void: bool)
      requires Valid() && State() == Gen([[]], 0, 0, 0, [], NoTarget, checks)
      modifies this
      ensures blocks == LowerProcedure(body, checks, void)
    {
      hide LowerAll;
      GenAll(body);
      if !Terminated(blocks[cur]) {
        if void { Emit(RetVoid); } else { Emit(Ret(Imm(0))); }
      }
    }
  }

  lemma BoundsAre(lo: S.Expr, hi: S.Expr, inclusive: bool, g: Gen)
    requires Ok(g)
    ensures var (g1, l) := LowerExpr(lo, g);
      var (g2, h) := LowerExpr(hi, g1);
      LowerBounds(lo, hi, inclusive, g) == StorePair(g2, l.op, h.op, inclusive)
  {
    hide LowerExpr, StorePair;
  }

  lemma EmitTwice(g: Gen, a: seq<Instr>, m: nat, b: seq<Instr>, n: nat)
    requires Ok(g)
    ensures EmitAll(EmitAll(g, a, m), b, n) == EmitAll(g, a + b, m + n)
  {
    assert (g.blocks[g.cur] + a) + b == g.blocks[g.cur] + (a + b);
  }

  lemma EmitAfter(g: Gen, a: seq<Instr>, i: Instr)
    requires Ok(g)
    ensures Lower.Define(EmitAll(g, a, 0), i).0 == EmitAll(g, a + [i], 1)
  {
    assert (g.blocks[g.cur] + a) + [i] == g.blocks[g.cur] + (a + [i]);
  }

  lemma PairParts(t: Region, r: nat, low: Operand, high: Operand)
    ensures PairCode(t, r, low, high, true)
      == [Alloca(t, 2), Store(low, t, Imm(0), 64), Binary(r, Add, high, Imm(1)), Store(Reg(r), t, Imm(1), 64), Load(r + 1, t, Imm(0)), Load(r + 2, t, Imm(1))]
    ensures PairCode(t, r, low, high, false)
      == [Alloca(t, 2), Store(low, t, Imm(0), 64), Store(high, t, Imm(1), 64), Load(r, t, Imm(0)), Load(r + 1, t, Imm(1))]
  {
  }

  lemma PairIs(g: Gen, low: Operand, high: Operand, inclusive: bool)
    requires Ok(g)
    ensures var h := EmitAll(g.(temps := g.temps + 1), PairCode(Temp(g.temps), g.regs, low, high, inclusive), if inclusive then 3 else 2);
      StorePair(g, low, high, inclusive) == (h, Reg(h.regs - 2), Reg(h.regs - 1))
  {
  }

  ghost function Empties(n: nat): seq<Block> { seq(n, _ => []) }

  function SearchTail(r: nat, found: BlockId, notFound: BlockId, negated: bool): Block {
    [Phi(r, [(Imm(1), found), (Imm(0), notFound)])]
    + if negated then [Binary(r + 1, Xor, Reg(r), Imm(1)), Cast(r + 2, ZExt, Reg(r + 1), 1, 64)]
      else [Cast(r + 1, ZExt, Reg(r), 1, 64)]
  }

  lemma SearchState(g: Gen, v: Operand, arr: nat, len: nat, negated: bool, h: Gen, r: Operand, bs: seq<Block>)
    requires Ok(g) && bs == SearchBlocks(|g.blocks|, g.regs, Temp(g.temps), v, arr, len, negated)
    requires h.blocks == (g.blocks[g.cur := g.blocks[g.cur] + [Alloca(Temp(g.temps), 1), Store(Imm(0), Temp(g.temps), Imm(0), 64), Br(|g.blocks|)]]
                          + [bs[0], bs[1], bs[2], bs[3], bs[4], []])[|g.blocks| + 5 := SearchTail(g.regs + 5, |g.blocks| + 3, |g.blocks| + 4, negated)]
    requires h.cur == |g.blocks| + 5 && h.regs == g.regs + (if negated then 8 else 7) && r == Reg(h.regs - 1)
    requires h == g.(blocks := h.blocks, cur := h.cur, regs := h.regs, temps := g.temps + 1)
    ensures (h, r) == Lower.Search(g, v, arr, len, negated)
  {
    hide SearchBlocks;
    assert bs[5] == SearchTail(g.regs + 5, |g.blocks| + 3, |g.blocks| + 4, negated) by { SearchMerge(|g.blocks|, g.regs, Temp(g.temps), v, arr, len, negated); }
    assert bs == [bs[0], bs[1], bs[2], bs[3], bs[4], bs[5]];
    assert h.blocks == Lower.Search(g, v, arr, len, negated).0.blocks;
  }

  lemma SearchParts(n: BlockId, r: nat, t: Region, v: Operand, arr: nat, len: nat, negated: bool)
    ensures var bs := SearchBlocks(n, r, t, v, arr, len, negated);
      && bs[0] == [Load(r, t, Imm(0)), ICmp(r + 1, Slt, Reg(r), Imm(len), 64), CondBr(Reg(r + 1), n + 1, n + 4)]
      && bs[1] == [Load(r + 2, Slot(arr, 64), Reg(r)), ICmp(r + 3, Eq, v, Reg(r + 2), 64), CondBr(Reg(r + 3), n + 3, n + 2)]
      && bs[2] == [Binary(r + 4, Add, Reg(r), Imm(1)), Store(Reg(r + 4), t, Imm(0), 64), Br(n)]
      && bs[3] == [Br(n + 5)] && bs[4] == [Br(n + 5)]
  {
  }

  lemma SearchMerge(n: BlockId, r: nat, t: Region, v: Operand, arr: nat, len: nat, negated: bool)
    ensures SearchBlocks(n, r, t, v, arr, len, negated)[5] == SearchTail(r + 5, n + 3, n + 4, negated)
  {
  }
}
