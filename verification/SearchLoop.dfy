/** The loop emitted for `in`: a linear search over the array, carried out by branches. */
module SearchLoop {
  import opened Words
  import opened Cfg
  import opened Lower
  import opened Growth
  import opened Simulation
  import opened Arithmetic
  import S = Source

  ghost predicate CodeAt(code: seq<Block>, b: BlockId, block: Block) {
    b < |code| && block <= code[b]
  }

  /** The loop's blocks are in the code, and its counter and array are in memory. */
  ghost predicate Ready(code: seq<Block>, n: BlockId, r: nat, t: Region, v: Operand, arr: nat, len: nat, negated: bool,
                        c: Config, w: nat, cells: seq<nat>, k: nat) {
    && (forall i | 0 <= i < 6 :: CodeAt(code, n + i, SearchBlocks(n, r, t, v, arr, len, negated)[i]))
    && (v.Reg? ==> v.id < r) && t.Temp?
    && Holds(c, v, w) && c.bb == n && c.pc == 0
    && |cells| == len < HALF && k <= len && w !in cells[..k]
    && t in c.mem && c.mem[t] == [k] && Slot(arr, 64) in c.mem && c.mem[Slot(arr, 64)] == cells
  }

  lemma StepAt(code: seq<Block>, c: Config, i: Instr)
    requires c.Running? && c.bb < |code| && c.pc < |code[c.bb]| && code[c.bb][c.pc] == i
    ensures Run(code, c, 1) == StepInstr(i, c)
  {
    assert Run(code, c, 1) == Run(code, Step(code, c), 0);
  }

  lemma CounterBelow(k: nat, len: nat)
    requires k <= len < HALF
    ensures Compare(Slt, k, len, 64) == (k < len) && ToWord(k + 1) == k + 1
  {
    SignedAt64(k);
    SignedAt64(len);
  }

  /** loop: read the counter and test it. */
  lemma HeadRuns(code: seq<Block>, n: BlockId, r: nat, t: Region, v: Operand, arr: nat, len: nat, negated: bool,
                 c: Config, w: nat, cells: seq<nat>, k: nat) returns (d: Config)
    requires Ready(code, n, r, t, v, arr, len, negated, c, w, cells, k)
    ensures d == Run(code, c, 3)
    ensures d == Running(if k < len then n + 1 else n + 4, 0, n, c.regs[r := k][r + 1 := Flag(k < len)], c.mem)
  {
    hide Compare;
    CounterBelow(k, len);
    assert CodeAt(code, n + 0, SearchBlocks(n, r, t, v, arr, len, negated)[0]);
    var b := code[n];
    assert b[0] == Load(r, t, Imm(0)) && b[1] == ICmp(r + 1, Slt, Reg(r), Imm(len), 64) && b[2] == CondBr(Reg(r + 1), n + 1, n + 4);
    StepAt(code, c, b[0]);
    var c1 := Run(code, c, 1);
    StepAt(code, c1, b[1]);
    var c2 := Run(code, c1, 1);
    StepAt(code, c2, b[2]);
    d := Run(code, c2, 1);
    Then(code, c, 1, c1, 1, c2);
    Then(code, c, 2, c2, 1, d);
  }

  /** body: load the element and compare. */
  lemma BodyRuns(code: seq<Block>, n: BlockId, r: nat, t: Region, v: Operand, arr: nat, len: nat, negated: bool,
                 c0: Config, c: Config, w: nat, cells: seq<nat>, k: nat) returns (d: Config)
    requires Ready(code, n, r, t, v, arr, len, negated, c0, w, cells, k) && k < len
    requires c.Running? && c.bb == n + 1 && c.pc == 0 && c.mem == c0.mem && SameRegs(c0, c, r) && Value(c.regs, Reg(r)) == Some(k)
    ensures d == Run(code, c, 3)
    ensures d == Running(if w == cells[k] then n + 3 else n + 2, 0, n + 1,
                         c.regs[r + 2 := cells[k]][r + 3 := Flag(w == cells[k])], c.mem)
  {
    assert CodeAt(code, n + 1, SearchBlocks(n, r, t, v, arr, len, negated)[1]);
    var b := code[n + 1];
    assert b[0] == Load(r + 2, Slot(arr, 64), Reg(r)) && b[1] == ICmp(r + 3, Eq, v, Reg(r + 2), 64) && b[2] == CondBr(Reg(r + 3), n + 3, n + 2);
    StepAt(code, c, b[0]);
    var c1 := Run(code, c, 1);
    StepAt(code, c1, b[1]);
    var c2 := Run(code, c1, 1);
    StepAt(code, c2, b[2]);
    d := Run(code, c2, 1);
    Then(code, c, 1, c1, 1, c2);
    Then(code, c, 2, c2, 1, d);
  }

  /** incr: add one to the counter and go round. */
  lemma IncrRuns(code: seq<Block>, n: BlockId, r: nat, t: Region, v: Operand, arr: nat, len: nat, negated: bool,
                 c0: Config, c: Config, w: nat, cells: seq<nat>, k: nat) returns (d: Config)
    requires Ready(code, n, r, t, v, arr, len, negated, c0, w, cells, k) && k < len && w != cells[k]
    requires c.Running? && c.bb == n + 2 && c.pc == 0 && c.mem == c0.mem && SameRegs(c0, c, r) && Value(c.regs, Reg(r)) == Some(k)
    ensures d == Run(code, c, 3) && SameRegs(c, d, r) && d.mem == c.mem[t := [k + 1]]
    ensures Ready(code, n, r, t, v, arr, len, negated, d, w, cells, k + 1)
  {
    CounterBelow(k, len);
    assert CodeAt(code, n + 2, SearchBlocks(n, r, t, v, arr, len, negated)[2]);
    var b := code[n + 2];
    assert b[0] == Binary(r + 4, Add, Reg(r), Imm(1)) && b[1] == Store(Reg(r + 4), t, Imm(0), 64) && b[2] == Br(n);
    StepAt(code, c, b[0]);
    var c1 := Run(code, c, 1);
    StepAt(code, c1, b[1]);
    var c2 := Run(code, c1, 1);
    StepAt(code, c2, b[2]);
    d := Run(code, c2, 1);
    Then(code, c, 1, c1, 1, c2);
    Then(code, c, 2, c2, 1, d);
    assert cells[..k + 1] == cells[..k] + [cells[k]];
    assert [k][0 := k + 1] == [k + 1];
  }

  /** From the loop's head to the merge block, which is entered from `found` exactly when w is among the cells. */
  lemma {:induction false} LoopRuns(code: seq<Block>, n: BlockId, r: nat, t: Region, v: Operand, arr: nat, len: nat, negated: bool,
                 c: Config, w: nat, cells: seq<nat>, k: nat) returns (m: nat, d: Config)
    requires Ready(code, n, r, t, v, arr, len, negated, c, w, cells, k)
    ensures d == Run(code, c, m) && SameRegs(c, d, r)
    ensures d.bb == n + 5 && d.pc == 0 && d.prev == if w in cells then n + 3 else n + 4
    ensures exists j: nat :: d.mem == c.mem[t := [j]]
    decreases len - k
  {
    hide StepInstr, Step, SearchBlocks;
    ExitBlocks(n, r, t, v, arr, len, negated);
    var c1 := HeadRuns(code, n, r, t, v, arr, len, negated, c, w, cells, k);
    if k == len {
      assert cells[..k] == cells;
      assert CodeAt(code, n + 4, SearchBlocks(n, r, t, v, arr, len, negated)[4]);
      d := BranchRuns(code, c1, n + 5);
      m := 4;
      Then(code, c, 3, c1, 1, d);
      assert d.mem == c.mem[t := [k]];
    } else {
      var c2 := BodyRuns(code, n, r, t, v, arr, len, negated, c, c1, w, cells, k);
      Then(code, c, 3, c1, 3, c2);
      if w == cells[k] {
        assert CodeAt(code, n + 3, SearchBlocks(n, r, t, v, arr, len, negated)[3]);
        d := BranchRuns(code, c2, n + 5);
        m := 7;
        Then(code, c, 6, c2, 1, d);
        assert d.mem == c.mem[t := [k]];
      } else {
        var c3 := IncrRuns(code, n, r, t, v, arr, len, negated, c, c2, w, cells, k);
        Then(code, c, 6, c2, 3, c3);
        var m1;
        m1, d := LoopRuns(code, n, r, t, v, arr, len, negated, c3, w, cells, k + 1);
        m := 9 + m1;
        Then(code, c, 9, c3, m1, d);
        var j: nat :| d.mem == c3.mem[t := [j]];
        assert d.mem == c.mem[t := [j]];
      }
    }
  }

  lemma BranchRuns(code: seq<Block>, c: Config, target: BlockId) returns (d: Config)
    requires c.Running? && c.pc == 0 && CodeAt(code, c.bb, [Br(target)])
    ensures d == Run(code, c, 1) == c.(bb := target, pc := 0, prev := c.bb)
  {
    assert code[c.bb][0] == [Br(target)][0];
    StepAt(code, c, Br(target));
    d := Run(code, c, 1);
  }

  lemma FlipFlag(b: bool)
    ensures BitXor(Flag(b), 1) == Flag(!b)
  {
    if b {
      assert BitXor(1 / 2, 1 / 2) == 0;
    }
  }

  /** found and notfound only jump to merge. */
  lemma ExitBlocks(n: BlockId, r: nat, t: Region, v: Operand, arr: nat, len: nat, negated: bool)
    ensures SearchBlocks(n, r, t, v, arr, len, negated)[3] == [Br(n + 5)]
    ensures SearchBlocks(n, r, t, v, arr, len, negated)[4] == [Br(n + 5)]
  {
  }

  /** merge: select the result, negate it for `not_in`, and widen it. */
  lemma TailRuns(code: seq<Block>, n: BlockId, r: nat, t: Region, v: Operand, arr: nat, len: nat, negated: bool,
                 c: Config, b: bool) returns (m: nat, d: Config)
    requires CodeAt(code, n + 5, SearchBlocks(n, r, t, v, arr, len, negated)[5])
    requires c.Running? && c.bb == n + 5 && c.pc == 0 && c.prev == if b then n + 3 else n + 4
    ensures d == Run(code, c, m) && SameRegs(c, d, r) && d.mem == c.mem && d.bb == n + 5
    ensures d.pc == |SearchBlocks(n, r, t, v, arr, len, negated)[5]|
    ensures Holds(d, Reg(if negated then r + 7 else r + 6), Flag(b != negated))
  {
    var block := SearchBlocks(n, r, t, v, arr, len, negated)[5];
    var phi := [(Imm(1), n + 3), (Imm(0), n + 4)];
    assert block[0] == Phi(r + 5, phi);
    assert phi[1..] == [(Imm(0), n + 4)];
    assert Incoming(phi, c.prev, c.regs) == Some(Flag(b));
    StepAt(code, c, block[0]);
    var c1 := Run(code, c, 1);
    if negated {
      assert block == [Phi(r + 5, phi), Binary(r + 6, Xor, Reg(r + 5), Imm(1)), Cast(r + 7, ZExt, Reg(r + 6), 1, 64)];
      FlipFlag(b);
      StepAt(code, c1, block[1]);
      var c2 := Run(code, c1, 1);
      StepAt(code, c2, block[2]);
      m, d := 3, Run(code, c2, 1);
      Then(code, c, 1, c1, 1, c2);
      Then(code, c, 2, c2, 1, d);
    } else {
      assert block == [Phi(r + 5, phi), Cast(r + 6, ZExt, Reg(r + 5), 1, 64)];
      StepAt(code, c1, block[1]);
      m, d := 2, Run(code, c1, 1);
      Then(code, c, 1, c1, 1, d);
    }
  }

  /** The whole of `in`, from the block that holds the sought value. */
  lemma SearchRuns(code: seq<Block>, g: Gen, v: Operand, arr: nat, len: nat, negated: bool,
                   c: Config, w: nat, cells: seq<nat>) returns (m: nat, d: Config)
    requires At(c, g) && Known(g, v) && Holds(c, v, w) && Ext(code, Search(g, v, arr, len, negated).0.blocks)
    requires |cells| == len < HALF && Slot(arr, 64) in c.mem && c.mem[Slot(arr, 64)] == cells
    ensures var (h, res) := Search(g, v, arr, len, negated);
      d == Run(code, c, m) && At(d, h) && Holds(d, res, Flag((w in cells) != negated))
    ensures SameRegs(c, d, g.regs) && exists j: nat :: d.mem == c.mem[Temp(g.temps) := [j]]
  {
    hide Ready, Ext, Step, StepInstr, SearchBlocks;
    var n, t := |g.blocks|, Temp(g.temps);
    SearchCode(code, g, v, arr, len, negated);
    var c1 := EntryRuns(code, g, v, arr, len, negated, c);
    ReadyAtEntry(code, g, v, arr, len, negated, c, c1, w, cells);
    var m1, c2 := LoopRuns(code, n, g.regs, t, v, arr, len, negated, c1, w, cells, 0);
    Then(code, c, 3, c1, m1, c2);
    var m2;
    m2, d := TailRuns(code, n, g.regs, t, v, arr, len, negated, c2, w in cells);
    m := 3 + m1 + m2;
    Then(code, c, 3 + m1, c2, m2, d);
    var j: nat :| c2.mem == c1.mem[t := [j]];
    assert d.mem == c.mem[t := [j]];
  }

  lemma SearchCode(code: seq<Block>, g: Gen, v: Operand, arr: nat, len: nat, negated: bool)
    requires Ok(g) && Ext(code, Search(g, v, arr, len, negated).0.blocks)
    ensures forall i | 0 <= i < 6 ::
      CodeAt(code, |g.blocks| + i, SearchBlocks(|g.blocks|, g.regs, Temp(g.temps), v, arr, len, negated)[i])
    ensures CodeAt(code, |g.blocks| + 5, SearchBlocks(|g.blocks|, g.regs, Temp(g.temps), v, arr, len, negated)[5])
  {
    var h := Search(g, v, arr, len, negated).0;
    var blocks := SearchBlocks(|g.blocks|, g.regs, Temp(g.temps), v, arr, len, negated);
    forall i | 0 <= i < 6 ensures CodeAt(code, |g.blocks| + i, blocks[i]) {
      assert h.blocks[|g.blocks| + i] <= code[|g.blocks| + i];
    }
  }

  lemma ReadyAtEntry(code: seq<Block>, g: Gen, v: Operand, arr: nat, len: nat, negated: bool,
                     c: Config, c1: Config, w: nat, cells: seq<nat>)
    requires At(c, g) && Known(g, v) && Holds(c, v, w) && Ext(code, Search(g, v, arr, len, negated).0.blocks)
    requires |cells| == len < HALF && Slot(arr, 64) in c.mem && c.mem[Slot(arr, 64)] == cells
    requires c1 == c.(bb := |g.blocks|, pc := 0, prev := g.cur, mem := c.mem[Temp(g.temps) := [0]])
    ensures Ready(code, |g.blocks|, g.regs, Temp(g.temps), v, arr, len, negated, c1, w, cells, 0)
  {
    SearchCode(code, g, v, arr, len, negated);
  }

  /** Set the counter to zero and enter the loop. */
  lemma EntryRuns(code: seq<Block>, g: Gen, v: Operand, arr: nat, len: nat, negated: bool, c: Config) returns (d: Config)
    requires At(c, g) && Ext(code, Search(g, v, arr, len, negated).0.blocks)
    ensures d == Run(code, c, 3)
    ensures d == c.(bb := |g.blocks|, pc := 0, prev := g.cur, mem := c.mem[Temp(g.temps) := [0]])
  {
    var t := Temp(g.temps);
    var h := Search(g, v, arr, len, negated).0;
    var entry := [Alloca(t, 1), Store(Imm(0), t, Imm(0), 64), Br(|g.blocks|)];
    assert h.blocks[g.cur] == g.blocks[g.cur] + entry;
    assert h.blocks[g.cur] <= code[g.cur];
    forall i | 0 <= i < 3 ensures code[g.cur][c.pc + i] == entry[i] {}
    StepAt(code, c, entry[0]);
    var c1 := Run(code, c, 1);
    StepAt(code, c1, entry[1]);
    var c2 := Run(code, c1, 1);
    StepAt(code, c2, entry[2]);
    d := Run(code, c2, 1);
    Then(code, c, 1, c1, 1, c2);
    Then(code, c, 2, c2, 1, d);
    assert seq(1, _ => 0)[0 := 0] == [0];
    assert c.mem[t := seq(1, _ => 0)][t := [0]] == c.mem[t := [0]];
  }
}
