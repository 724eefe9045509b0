/** The emitted code: basic blocks of LLVM-like instructions, and a machine that runs them. */
module Cfg {
  import opened Words

  type BlockId = nat

  /** A variable's own stack slot, with the width its cells were allocated at, or a temporary of 64-bit cells. */
  datatype Region = Slot(x: nat, width: nat) | Temp(t: nat)

  datatype Operand = Imm(word: nat) | Reg(id: nat)

  datatype BinOp = Add | Sub | Mul | SDiv | SRem | Shl | AShr | And | Or | Xor

  datatype Pred = Eq | Ne | Slt | Sgt | Sle | Sge | Uge

  datatype CastKind = ZExt | SExt | Trunc

  datatype Instr =
    | Binary(dst: nat, op: BinOp, a: Operand, b: Operand)
    | ICmp(dst: nat, pred: Pred, a: Operand, b: Operand, width: nat)
    | Cast(dst: nat, kind: CastKind, a: Operand, from: nat, to: nat)
    | Alloca(region: Region, cells: nat)
    | Load(dst: nat, region: Region, index: Operand)   // in-bounds GEP followed by a load
    | Store(value: Operand, region: Region, index: Operand, width: nat)
    | Phi(dst: nat, incoming: seq<(Operand, BlockId)>)
    | CallTrap
    | Br(target: BlockId)
    | CondBr(cond: Operand, thn: BlockId, els: BlockId)
    | Ret(value: Operand)
    | RetVoid
    | Unreachable

  type Block = seq<Instr>

  type Memory = map<Region, seq<nat>>

  datatype Config =
    | Running(bb: BlockId, pc: nat, prev: BlockId, regs: map<nat, nat>, mem: Memory)
    | Trapped
    | Returned(value: nat, mem: Memory)
    | ReturnedVoid(mem: Memory)
    | Stuck  // undefined behaviour, or malformed code

  predicate IsTerminator(i: Instr) {
    i.Br? || i.CondBr? || i.Ret? || i.RetVoid? || i.Unreachable?
  }

  // ---- meaning of the instructions ----

  datatype Maybe = None | Some(word: nat)

  function Value(regs: map<nat, nat>, op: Operand): Maybe {
    match op
    case Imm(w) => Some(w)
    case Reg(r) => if r in regs then Some(regs[r]) else None
  }

  /** i64 arithmetic on words; None where LLVM leaves the result undefined. */
  function BinWord(op: BinOp, a: nat, b: nat): Maybe {
    match op
    case Add => Some(ToWord(a + b))
    case Sub => Some(ToWord(a - b))
    case Mul => Some(ToWord(a * b))
    case SDiv => if ToInt(b) == 0 || (ToInt(a) == -HALF && ToInt(b) == -1) then None else Some(ToWord(TruncDiv(ToInt(a), ToInt(b))))
    case SRem => if ToInt(b) == 0 || (ToInt(a) == -HALF && ToInt(b) == -1) then None else Some(ToWord(TruncMod(ToInt(a), ToInt(b))))
    case Shl => if b >= 64 then None else Some(ToWord(a * Pow2(b)))
    case AShr => if b >= 64 then None else Some(ToWord(ToInt(a) / Pow2(b)))
    case And => Some(BitAnd(a, b))
    case Or => Some(BitOr(a, b))
    case Xor => Some(BitXor(a, b))
  }

  /** Signed reading of a value of the given width. */
  function SignedAt(w: nat, width: nat): int {
    if width > 0 && w >= Pow2(width - 1) then w - Pow2(width) else w
  }

  predicate Compare(pred: Pred, a: nat, b: nat, width: nat) {
    match pred
    case Eq => a == b
    case Ne => a != b
    case Slt => SignedAt(a, width) < SignedAt(b, width)
    case Sgt => SignedAt(a, width) > SignedAt(b, width)
    case Sle => SignedAt(a, width) <= SignedAt(b, width)
    case Sge => SignedAt(a, width) >= SignedAt(b, width)
    case Uge => a >= b
  }

  function CastWord(kind: CastKind, w: nat, from: nat, to: nat): nat {
    match kind
    case ZExt => w
    case SExt => SignedAt(w, from) % Pow2(to)
    case Trunc => w % Pow2(to)
  }

  function Flag(b: bool): nat { if b then 1 else 0 }

  /** The incoming value a phi selects when control came from block `from`. */
  function Incoming(incoming: seq<(Operand, BlockId)>, from: BlockId, regs: map<nat, nat>): Maybe {
    if incoming == [] then None
    else if incoming[0].1 == from then Value(regs, incoming[0].0)
    else Incoming(incoming[1..], from, regs)
  }

  function Assign(c: Config, dst: nat, v: Maybe): Config
    requires c.Running?
  {
    match v
    case None => Stuck
    case Some(w) => c.(pc := c.pc + 1, regs := c.regs[dst := w])
  }

  function Enter(c: Config, target: BlockId): Config
    requires c.Running?
  {
    c.(bb := target, pc := 0, prev := c.bb)
  }

  /** A store wider than the cell would write over what lies behind it. */
  function CellWidth(region: Region): nat { if region.Slot? then region.width else 64 }

  function StepInstr(i: Instr, c: Config): Config
    requires c.Running?
  {
    match i
    case Binary(dst, op, a, b) =>
      var va, vb := Value(c.regs, a), Value(c.regs, b);
      if va.None? || vb.None? then Stuck else Assign(c, dst, BinWord(op, va.word, vb.word))
    case ICmp(dst, pred, a, b, width) =>
      var va, vb := Value(c.regs, a), Value(c.regs, b);
      if va.None? || vb.None? then Stuck
      else Assign(c, dst, Some(Flag(Compare(pred, va.word, vb.word, width))))
    case Cast(dst, kind, a, from, to) =>
      var va := Value(c.regs, a);
      if va.None? then Stuck else Assign(c, dst, Some(CastWord(kind, va.word, from, to)))
    case Alloca(region, cells) =>
      c.(pc := c.pc + 1, mem := c.mem[region := seq(cells, _ => 0)])
    case Load(dst, region, index) =>
      var vi := Value(c.regs, index);
      if vi.None? || region !in c.mem || vi.word >= |c.mem[region]| then Stuck
      else Assign(c, dst, Some(c.mem[region][vi.word]))
    case Store(value, region, index, width) =>
      var v, vi := Value(c.regs, value), Value(c.regs, index);
      if v.None? || vi.None? || region !in c.mem || vi.word >= |c.mem[region]| || width > CellWidth(region) then Stuck
      else
        var cells: seq<nat> := c.mem[region][vi.word := v.word];
        c.(pc := c.pc + 1, mem := c.mem[region := cells])
    case Phi(dst, incoming) => Assign(c, dst, Incoming(incoming, c.prev, c.regs))
    case CallTrap => Trapped
    case Br(target) => Enter(c, target)
    case CondBr(cond, thn, els) =>
      var v := Value(c.regs, cond);
      if v.None? then Stuck else Enter(c, if v.word != 0 then thn else els)
    case Ret(value) =>
      var v := Value(c.regs, value);
      if v.None? then Stuck else Returned(v.word, c.mem)
    case RetVoid => ReturnedVoid(c.mem)
    case Unreachable => Stuck
  }

  function Step(code: seq<Block>, c: Config): Config {
    if !c.Running? then c
    else if c.bb < |code| && c.pc < |code[c.bb]| then StepInstr(code[c.bb][c.pc], c)
    else Stuck
  }

  function Run(code: seq<Block>, c: Config, n: nat): Config
    decreases n
  {
    if n == 0 then c else Run(code, Step(code, c), n - 1)
  }

  lemma {:induction false} RunPlus(code: seq<Block>, c: Config, m: nat, n: nat)
    ensures Run(code, c, m + n) == Run(code, Run(code, c, m), n)
    decreases m
  {
    if m > 0 {
      RunPlus(code, Step(code, c), m - 1, n);
    }
  }

  /** A finished run stays finished. */
  lemma {:induction false} RunHalted(code: seq<Block>, c: Config, n: nat)
    requires !c.Running?
    ensures Run(code, c, n) == c
    decreases n
  {
    if n > 0 { RunHalted(code, c, n - 1); }
  }

  // ---- shape of the graph ----

  predicate Terminated(b: Block) {
    |b| > 0 && IsTerminator(b[|b| - 1])
  }

  /** No terminator anywhere: more instructions may follow. */
  ghost predicate Open(b: Block) {
    forall k | 0 <= k < |b| :: !IsTerminator(b[k])
  }

  /** Exactly one terminator, at the end. */
  ghost predicate Closed(b: Block) {
    Terminated(b) && Open(b[..|b| - 1])
  }

  function Targets(i: Instr): set<BlockId> {
    match i
    case Br(t) => {t}
    case CondBr(_, t, e) => {t, e}
    case _ => {}
  }

  /** Block p jumps to block b. */
  ghost predicate Edge(code: seq<Block>, p: BlockId, b: BlockId) {
    p < |code| && exists k | 0 <= k < |code[p]| :: b in Targets(code[p][k])
  }

  /** `later` was reached from `earlier` by appending only. */
  ghost predicate Ext(later: seq<Block>, earlier: seq<Block>) {
    |earlier| <= |later| && forall b | 0 <= b < |earlier| :: earlier[b] <= later[b]
  }
}
