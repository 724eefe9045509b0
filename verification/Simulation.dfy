/** How the machine runs the pieces the builder emits: a single instruction, a conversion, a fork, a join. */
module Simulation {
  import opened Words
  import opened Cfg
  import opened Lower
  import opened Growth
  import S = Source

  // ---- relating source values to machine values ----

  function Encode(v: S.Value): nat {
    match v
    case I(n) => ToWord(n)
    case B(b) => Flag(b)
    case A(_) => 0
  }

  function Cells(v: S.Value): seq<nat> {
    if v.A? then seq(|v.cells|, k requires 0 <= k < |v.cells| => ToWord(v.cells[k])) else [Encode(v)]
  }

  /** The slot of a variable that holds v. */
  function SlotOf(x: nat, v: S.Value): Region { Slot(x, if v.B? then 1 else 64) }

  /** Every variable's slot holds the variable's value. */
  ghost predicate MemOk(s: S.Store, mem: Memory) {
    forall x | x in s :: SlotOf(x, s[x]) in mem && mem[SlotOf(x, s[x])] == Cells(s[x])
  }

  /** The machine is where the builder is: at the end of the current block. */
  predicate At(c: Config, g: Gen) {
    c.Running? && Ok(g) && c.bb == g.cur && c.pc == |g.blocks[g.cur]|
  }

  predicate Holds(c: Config, op: Operand, w: nat) {
    c.Running? && Value(c.regs, op) == Some(w)
  }

  /** Registers below n kept their values. */
  ghost predicate SameRegs(c: Config, d: Config, n: nat) {
    c.Running? && d.Running? && forall r | r in c.regs && r < n :: r in d.regs && d.regs[r] == c.regs[r]
  }

  lemma HoldsLater(c: Config, d: Config, g: Gen, op: Operand, w: nat)
    requires Known(g, op) && Holds(c, op, w) && SameRegs(c, d, g.regs)
    ensures Holds(d, op, w)
  {
  }

  lemma SameRegsTrans(b: Config, c: Config, d: Config, m: nat, n: nat)
    requires SameRegs(b, c, m) && SameRegs(c, d, n) && m <= n
    ensures SameRegs(b, d, m)
  {
  }

  /** Two runs, one after the other. */
  lemma Then(code: seq<Block>, b: Config, m: nat, c: Config, n: nat, d: Config)
    requires Run(code, b, m) == c && Run(code, c, n) == d
    ensures Run(code, b, m + n) == d
  {
    RunPlus(code, b, m, n);
  }

  // ---- one instruction ----

  lemma StepEmitted(code: seq<Block>, g: Gen, i: Instr, c: Config)
    requires At(c, g) && Ext(code, Emit(g, i).blocks)
    ensures Run(code, c, 1) == StepInstr(i, c)
  {
    var h := Emit(g, i);
    assert h.blocks[g.cur] <= code[g.cur];
    assert h.blocks[g.cur][c.pc] == i;
    assert Run(code, c, 1) == Run(code, Step(code, c), 0);
  }

  /** An instruction computing w into the next register. */
  lemma DefineRuns(code: seq<Block>, g: Gen, i: Instr, c: Config, w: nat) returns (d: Config)
    requires At(c, g) && Ext(code, Emit(g, i).blocks)
    requires StepInstr(i, c) == Assign(c, g.regs, Some(w))
    ensures d == Run(code, c, 1) && At(d, Define(g, i).0) && Holds(d, Reg(g.regs), w)
    ensures SameRegs(c, d, g.regs) && d.mem == c.mem
  {
    StepEmitted(code, g, i, c);
    d := Run(code, c, 1);
  }

  // ---- conversions ----

  lemma TestZeroRuns(code: seq<Block>, g: Gen, pred: Pred, v: Typed, c: Config, w: nat) returns (d: Config)
    requires (pred == Eq || pred == Ne) && At(c, g) && Known(g, v.op) && Holds(c, v.op, w)
    requires Ext(code, TestZero(g, pred, v).0.blocks)
    ensures d == Run(code, c, 1) && At(d, TestZero(g, pred, v).0)
    ensures Holds(d, Reg(g.regs), Flag(if pred == Eq then w == 0 else w != 0))
    ensures SameRegs(c, d, g.regs) && d.mem == c.mem
  {
    d := DefineRuns(code, g, ICmp(g.regs, pred, v.op, Imm(0), v.width), c, Flag(if pred == Eq then w == 0 else w != 0));
  }

  lemma TruthRuns(code: seq<Block>, g: Gen, v: Typed, c: Config, b: bool) returns (n: nat, d: Config)
    requires At(c, g) && Known(g, v.op) && Ext(code, Truth(g, v).0.blocks) && Holds(c, v.op, Flag(b))
    ensures d == Run(code, c, n) && At(d, Truth(g, v).0) && Holds(d, Truth(g, v).1, Flag(b))
    ensures SameRegs(c, d, g.regs) && d.mem == c.mem
  {
    if v.width == 1 {
      n, d := 0, c;
    } else {
      n := 1;
      d := DefineRuns(code, g, ICmp(g.regs, Ne, v.op, Imm(0), v.width), c, Flag(b));
    }
  }

  /** Widening or narrowing a truth value keeps it. */
  lemma ResizeRuns(code: seq<Block>, g: Gen, v: Typed, width: nat, c: Config, b: bool) returns (n: nat, d: Config)
    requires At(c, g) && Known(g, v.op) && Ext(code, Resize(g, v, width).0.blocks) && Holds(c, v.op, Flag(b))
    requires width > 0
    ensures d == Run(code, c, n) && At(d, Resize(g, v, width).0) && Holds(d, Resize(g, v, width).1, Flag(b))
    ensures SameRegs(c, d, g.regs) && d.mem == c.mem
  {
    if v.width == width {
      n, d := 0, c;
    } else {
      var kind := if width < v.width then Trunc else ZExt;
      FlagFits(b, width);
      n := 1;
      d := DefineRuns(code, g, Cast(g.regs, kind, v.op, v.width, width), c, Flag(b));
    }
  }

  lemma FlagFits(b: bool, width: nat)
    requires width > 0
    ensures Flag(b) % Pow2(width) == Flag(b)
  {
    SmallMod(Flag(b), Pow2(width));
  }

  lemma SmallMod(a: nat, m: nat)
    requires a < m
    ensures a % m == a
  {
  }

  // ---- fork and join ----

  lemma ForkRuns(code: seq<Block>, g: Gen, cond: Operand, rhsOnTrue: bool, c: Config, b: bool) returns (d: Config)
    requires At(c, g) && Holds(c, cond, Flag(b)) && Ext(code, Fork(g, cond, rhsOnTrue).blocks)
    ensures d == Run(code, c, 1)
    ensures d == c.(bb := if b == rhsOnTrue then |g.blocks| else |g.blocks| + 1, pc := 0, prev := g.cur)
    ensures b == rhsOnTrue ==> At(d, Fork(g, cond, rhsOnTrue))
  {
    var rhs, merge := |g.blocks|, |g.blocks| + 1;
    StepEmitted(code, NewBlocks(g, 2), if rhsOnTrue then CondBr(cond, rhs, merge) else CondBr(cond, merge, rhs), c);
    d := Run(code, c, 1);
  }

  lemma Fork3Runs(code: seq<Block>, g: Gen, cond: Operand, c: Config, b: bool) returns (d: Config)
    requires At(c, g) && Holds(c, cond, Flag(b)) && Ext(code, Fork3(g, cond).blocks)
    ensures d == Run(code, c, 1)
    ensures d == c.(bb := if b then |g.blocks| else |g.blocks| + 1, pc := 0, prev := g.cur)
    ensures b ==> At(d, Fork3(g, cond))
  {
    StepEmitted(code, NewBlocks(g, 3), CondBr(cond, |g.blocks|, |g.blocks| + 1), c);
    d := Run(code, c, 1);
  }

  /** Arriving at the merge block straight from the fork: the phi takes the first value. */
  lemma JoinFromFork(code: seq<Block>, g: Gen, merge: BlockId, v0: Operand, from0: BlockId, v1: Operand, c: Config, w: nat)
    returns (d: Config)
    requires Ok(g) && merge < |g.blocks| && merge != g.cur && g.blocks[merge] == []
    requires Ext(code, Join(g, merge, v0, from0, v1).0.blocks)
    requires c.Running? && c.bb == merge && c.pc == 0 && c.prev == from0 && Holds(c, v0, w)
    ensures d == Run(code, c, 1) && At(d, Join(g, merge, v0, from0, v1).0) && Holds(d, Reg(g.regs), w)
    ensures SameRegs(c, d, g.regs) && d.mem == c.mem
  {
    var g1 := Move(Emit(g, Br(merge)), merge);
    var i := Phi(g1.regs, [(v0, from0), (v1, g.cur)]);
    d := DefineRuns(code, g1, i, c, w);
  }

  /** Arriving after the right operand: the phi takes the second value. */
  lemma JoinFromRhs(code: seq<Block>, g: Gen, merge: BlockId, v0: Operand, from0: BlockId, v1: Operand, c: Config, w: nat)
    returns (d: Config)
    requires Ok(g) && merge < |g.blocks| && merge != g.cur && g.blocks[merge] == [] && from0 != g.cur
    requires Ext(code, Join(g, merge, v0, from0, v1).0.blocks)
    requires At(c, g) && Holds(c, v1, w)
    ensures d == Run(code, c, 2) && At(d, Join(g, merge, v0, from0, v1).0) && Holds(d, Reg(g.regs), w)
    ensures SameRegs(c, d, g.regs) && d.mem == c.mem
  {
    var h := Emit(g, Br(merge));
    var g1 := Move(h, merge);
    var i := Phi(g1.regs, [(v0, from0), (v1, g.cur)]);
    JoinExt(code, g, merge, v0, from0, v1);
    StepEmitted(code, g, Br(merge), c);
    var c1 := Run(code, c, 1);
    assert Incoming([(v0, from0), (v1, g.cur)], c1.prev, c1.regs) == Some(w) by {
      assert [(v0, from0), (v1, g.cur)][1..] == [(v1, g.cur)];
    }
    d := DefineRuns(code, g1, i, c1, w);
    Then(code, c, 1, c1, 1, d);
  }

  lemma JoinExt(code: seq<Block>, g: Gen, merge: BlockId, v0: Operand, from0: BlockId, v1: Operand)
    requires Ok(g) && merge < |g.blocks| && Ext(code, Join(g, merge, v0, from0, v1).0.blocks)
    ensures Ext(code, Emit(g, Br(merge)).blocks)
  {
    var g1 := Move(Emit(g, Br(merge)), merge);
    DefineGrows(g1, Phi(g1.regs, [(v0, from0), (v1, g.cur)]));
    ExtDown(code, g1, Join(g, merge, v0, from0, v1).0);
  }

  // ---- bounds check ----

  /** One unsigned comparison catches negative and too large indices alike. */
  lemma UnsignedCatchesBoth(n: int, len: nat)
    requires IsInt64(n) && len < HALF
    ensures ToWord(n) >= len <==> !(0 <= n < len)
  {
    if n < 0 { ModShift(n, 1); }
  }

  /** The comparison and the branch of a bounds check. */
  lemma BoundsBranchRuns(code: seq<Block>, g: Gen, idx: Operand, len: nat, c: Config, n: int) returns (d: Config)
    requires At(c, g) && IsInt64(n) && len < HALF && Holds(c, idx, ToWord(n))
    requires var cmp := ICmp(g.regs, Uge, idx, Imm(len), 64);
      Ext(code, Fork(Define(g, cmp).0, Reg(g.regs), false).blocks)
    ensures d == Run(code, c, 2) && d.Running? && d.pc == 0
    ensures d.bb == if 0 <= n < len then |g.blocks| else |g.blocks| + 1
    ensures SameRegs(c, d, g.regs) && d.mem == c.mem
  {
    UnsignedCatchesBoth(n, len);
    var bad := !(0 <= n < len);
    var i := ICmp(g.regs, Uge, idx, Imm(len), 64);
    var (g1, oob) := Define(g, i);
    ForkGrows(g1, oob, false);
    ExtDown(code, g1, Fork(g1, oob, false));
    var c1 := DefineRuns(code, g, i, c, Flag(bad));
    d := ForkRuns(code, g1, oob, false, c1, bad);
    Then(code, c, 1, c1, 1, d);
  }

  lemma BoundsCheckRuns(code: seq<Block>, g: Gen, v: Typed, len: nat, c: Config, n: int) returns (k: nat, d: Config)
    requires At(c, g) && Known(g, v.op) && Ext(code, BoundsCheck(g, v, len).0.blocks)
    requires v.width == 64 && IsInt64(n) && len < HALF && Holds(c, v.op, ToWord(n))
    ensures d == Run(code, c, k)
    ensures if g.checks && !(0 <= n < len) then d == Trapped
      else At(d, BoundsCheck(g, v, len).0) && Holds(d, BoundsCheck(g, v, len).1, ToWord(n))
           && SameRegs(c, d, g.regs) && d.mem == c.mem
  {
    if !g.checks {
      k, d := 0, c;
    } else {
      hide Grows, Ext, Fork, Define, Emit, Compare;
      var (g1, oob) := Define(g, ICmp(g.regs, Uge, v.op, Imm(len), 64));
      var f := Fork(g1, oob, false);
      var t := Move(f, |g1.blocks| + 1);
      Descend(code, Emit(t, CallTrap), Unreachable);
      Descend(code, t, CallTrap);
      d := BoundsBranchRuns(code, g, v.op, len, c, n);
      k := 2;
      if 0 <= n < len {
        HoldsLater(c, d, g, v.op, ToWord(n));
      } else {
        TrapRuns(code, g, g1, oob, d);
        RunPlus(code, c, 2, 1);
        k, d := 3, Trapped;
      }
    }
  }

  lemma TrapRuns(code: seq<Block>, g: Gen, g1: Gen, oob: Operand, c: Config)
    requires Ok(g1) && |g1.blocks| == |g.blocks|
    requires c.Running? && c.bb == |g.blocks| + 1 && c.pc == 0
    requires Ext(code, Emit(Move(Fork(g1, oob, false), |g1.blocks| + 1), CallTrap).blocks)
    ensures Run(code, c, 1) == Trapped
  {
    StepEmitted(code, Move(Fork(g1, oob, false), |g1.blocks| + 1), CallTrap, c);
  }

  lemma Descend(code: seq<Block>, g: Gen, i: Instr)
    requires Ok(g) && Ext(code, Emit(g, i).blocks)
    ensures Ext(code, g.blocks)
  {
    DefineGrows(g, i);
    ExtDown(code, g, Emit(g, i));
  }
}
