/** The graph the generator builds is well formed: every block it leaves behind ends in its only terminator,
    phis stand at the head of their block, and a phi lists exactly the block's predecessors. */
module Shape {
  import opened Cfg
  import opened Lower
  import opened Growth
  import S = Source

  ghost function Preds(code: seq<Block>, b: BlockId): set<BlockId> {
    set p: nat | p < |code| && Edge(code, p, b)
  }

  function Sources(incoming: seq<(Operand, BlockId)>): set<BlockId> {
    set j | 0 <= j < |incoming| :: incoming[j].1
  }

  /** A phi in block b is its first instruction and has one entry for each predecessor and no other. */
  ghost predicate PhiExact(code: seq<Block>, b: BlockId)
    requires b < |code|
  {
    forall k | 0 <= k < |code[b]| && code[b][k].Phi? ::
      k == 0 && Sources(code[b][k].incoming) == Preds(code, b) && |Sources(code[b][k].incoming)| == |code[b][k].incoming|
  }

  ghost predicate NoPhi(b: Block) {
    forall k | 0 <= k < |b| :: !b[k].Phi?
  }

  /** No jump leads to a block that does not exist. */
  ghost predicate NoDangling(code: seq<Block>) {
    forall b | b >= |code| :: Preds(code, b) == {}
  }

  /** g's blocks are f's, except that f's current block may have grown, plus new ones. */
  ghost predicate Appends(f: Gen, g: Gen) {
    && Ok(f) && Ok(g) && |f.blocks| <= |g.blocks|
    && (forall b | 0 <= b < |f.blocks| && b != f.cur :: g.blocks[b] == f.blocks[b])
    && f.blocks[f.cur] <= g.blocks[f.cur]
    && (g.cur == f.cur || g.cur >= |f.blocks|)
  }

  /** Every block left behind since f is closed; those in pending were appended but are still empty. */
  ghost predicate AllClosed(f: Gen, g: Gen, pending: set<BlockId>)
    requires Appends(f, g)
  {
    && (g.cur != f.cur ==> Closed(g.blocks[f.cur]))
    && (forall b | |f.blocks| <= b < |g.blocks| && b != g.cur :: if b in pending then g.blocks[b] == [] else Closed(g.blocks[b]))
    && (forall b | b in pending :: |f.blocks| <= b < |g.blocks| && b != g.cur)
  }

  /** New jumps to f's blocks go to blocks in outer only, and new phis are exact. */
  ghost predicate EdgesInside(f: Gen, g: Gen, outer: set<BlockId>)
    requires Appends(f, g)
  {
    && NoDangling(g.blocks)
    && (forall b | 0 <= b < |f.blocks| && b !in outer :: Preds(g.blocks, b) == Preds(f.blocks, b))
    && (forall b | |f.blocks| <= b < |g.blocks| :: PhiExact(g.blocks, b))
    && (forall k | |f.blocks[f.cur]| <= k < |g.blocks[f.cur]| :: !g.blocks[f.cur][k].Phi?)
    && (forall b | b in outer :: b < |f.blocks|)
  }

  ghost predicate Tidy(f: Gen, g: Gen, pending: set<BlockId>, outer: set<BlockId>) {
    Appends(f, g) && AllClosed(f, g, pending) && EdgesInside(f, g, outer)
  }

  /** Tidy, and ready for more instructions. */
  ghost predicate TidyOpen(f: Gen, g: Gen, pending: set<BlockId>, outer: set<BlockId>) {
    Tidy(f, g, pending, outer) && Open(g.blocks[g.cur])
  }

  // ---- edges ----

  lemma EdgesGrow(later: seq<Block>, earlier: seq<Block>, b: BlockId)
    requires Ext(later, earlier)
    ensures Preds(earlier, b) <= Preds(later, b)
  {
    forall p | p in Preds(earlier, b) ensures p in Preds(later, b) {
      assert earlier[p] <= later[p];
      var k :| 0 <= k < |earlier[p]| && b in Targets(earlier[p][k]);
      assert later[p][k] == earlier[p][k];
    }
  }

  /** Emitting an instruction adds edges from the current block to the instruction's targets. */
  lemma EmitEdges(g: Gen, i: Instr, b: BlockId)
    requires Ok(g)
    ensures Preds(Emit(g, i).blocks, b) == Preds(g.blocks, b) + if b in Targets(i) then {g.cur} else {}
  {
    var h := Emit(g, i);
    DefineGrows(g, i);
    assert Ext(h.blocks, g.blocks);
    EdgesGrow(h.blocks, g.blocks, b);
    assert h.blocks[g.cur] == g.blocks[g.cur] + [i];
    assert h.blocks[g.cur][|g.blocks[g.cur]|] == i;
    forall p | p in Preds(h.blocks, b) ensures p in Preds(g.blocks, b) || (p == g.cur && b in Targets(i)) {
      var k :| 0 <= k < |h.blocks[p]| && b in Targets(h.blocks[p][k]);
      if p != g.cur || k < |g.blocks[p]| {
        assert k < |g.blocks[p]| && g.blocks[p][k] == h.blocks[p][k];
      }
    }
  }

  lemma NewBlocksEdges(g: Gen, n: nat, b: BlockId)
    ensures Preds(NewBlocks(g, n).blocks, b) == Preds(g.blocks, b)
  {
    var h := NewBlocks(g, n);
    forall p | p in Preds(h.blocks, b) ensures p in Preds(g.blocks, b) {
      assert p < |g.blocks|;
      assert h.blocks[p] == g.blocks[p];
    }
    forall p | p in Preds(g.blocks, b) ensures p in Preds(h.blocks, b) {
      assert h.blocks[p] == g.blocks[p];
    }
  }

  // ---- composition ----

  /** Work done from g on, after work done from f on. Jumps allowed to the second part may reach blocks of the first,
      provided those have no phi. */
  lemma TidyTrans(f: Gen, g: Gen, h: Gen, pending: set<BlockId>, outer: set<BlockId>, outer': set<BlockId>)
    requires TidyOpen(f, g, pending, outer) && Tidy(g, h, {}, outer')
    requires forall b | b in outer' :: b in outer || (|f.blocks| <= b && NoPhi(g.blocks[b]))
    ensures Tidy(f, h, pending, outer)
  {
    TransAppends(f, g, h);
    TransClosed(f, g, h, pending);
    TransEdges(f, g, h, outer, outer');
  }

  lemma TransAppends(f: Gen, g: Gen, h: Gen)
    requires Appends(f, g) && Appends(g, h)
    ensures Appends(f, h)
  {
  }

  lemma TransClosed(f: Gen, g: Gen, h: Gen, pending: set<BlockId>)
    requires Appends(f, g) && Appends(g, h) && AllClosed(f, g, pending) && AllClosed(g, h, {})
    ensures Appends(f, h) && AllClosed(f, h, pending)
  {
    hide Closed;
  }

  lemma TransEdges(f: Gen, g: Gen, h: Gen, outer: set<BlockId>, outer': set<BlockId>)
    requires Appends(f, g) && Appends(g, h) && EdgesInside(f, g, outer) && EdgesInside(g, h, outer')
    requires forall b | b in outer' :: b in outer || (|f.blocks| <= b && NoPhi(g.blocks[b]))
    ensures Appends(f, h) && EdgesInside(f, h, outer)
  {
    forall b | 0 <= b < |f.blocks| && b !in outer ensures Preds(h.blocks, b) == Preds(f.blocks, b) {
      assert b !in outer' && Preds(h.blocks, b) == Preds(g.blocks, b);
    }
    forall b | |f.blocks| <= b < |h.blocks| ensures PhiExact(h.blocks, b) {
      if b < |g.blocks| {
        assert PhiExact(g.blocks, b);
        PhiKept(g, h, b, outer');
      }
    }
    forall k | |f.blocks[f.cur]| <= k < |h.blocks[f.cur]| ensures !h.blocks[f.cur][k].Phi? {
      if k < |g.blocks[f.cur]| {
        assert g.blocks[f.cur] <= h.blocks[f.cur];
        assert !g.blocks[f.cur][k].Phi?;
      }
    }
  }

  /** An exact phi stays exact, because nothing is added to its predecessors or in front of it. */
  lemma PhiKept(g: Gen, h: Gen, b: BlockId, outer: set<BlockId>)
    requires b < |g.blocks| && Appends(g, h) && EdgesInside(g, h, outer) && PhiExact(g.blocks, b)
    requires b in outer ==> NoPhi(g.blocks[b])
    ensures PhiExact(h.blocks, b)
  {
    hide Preds;
    assert g.blocks[b] <= h.blocks[b];
    forall k | 0 <= k < |h.blocks[b]| && h.blocks[b][k].Phi?
      ensures k == 0 && Sources(h.blocks[b][k].incoming) == Preds(h.blocks, b)
        && |Sources(h.blocks[b][k].incoming)| == |h.blocks[b][k].incoming|
    {
      assert k < |g.blocks[b]|;
      assert h.blocks[b][k] == g.blocks[b][k];
      assert b !in outer;
    }
  }

  // ---- pieces ----

  lemma TidyRefl(g: Gen)
    requires Ok(g) && Open(g.blocks[g.cur]) && NoDangling(g.blocks)
    ensures TidyOpen(g, g, {}, {})
  {
  }

  lemma PlainTidy(g: Gen, i: Instr)
    requires Ok(g) && Open(g.blocks[g.cur]) && NoDangling(g.blocks)
    requires !IsTerminator(i) && !i.Phi?
    ensures TidyOpen(g, Emit(g, i), {}, {}) && TidyOpen(g, Define(g, i).0, {}, {})
  {
    var h := Emit(g, i);
    forall b: nat ensures Preds(h.blocks, b) == Preds(g.blocks, b) {
      EmitEdges(g, i, b);
    }
    assert h.blocks[g.cur] == g.blocks[g.cur] + [i];
  }

  predicate Between(from: BlockId, b: BlockId, n: nat) { from <= b < from + n }

  lemma {:induction false} PlainAllTidy(g: Gen, ins: seq<Instr>, n: nat)
    requires Ok(g) && Open(g.blocks[g.cur]) && NoDangling(g.blocks)
    requires forall k | 0 <= k < |ins| :: !IsTerminator(ins[k]) && !ins[k].Phi?
    ensures TidyOpen(g, EmitAll(g, ins, n), {}, {})
  {
    var h := EmitAll(g, ins, n);
    assert h.blocks[g.cur] == g.blocks[g.cur] + ins;
    forall b: nat ensures Preds(h.blocks, b) == Preds(g.blocks, b) {
      forall p | p in Preds(h.blocks, b) ensures p in Preds(g.blocks, b) {
        var k :| 0 <= k < |h.blocks[p]| && b in Targets(h.blocks[p][k]);
        assert k < |g.blocks[p]| && g.blocks[p][k] == h.blocks[p][k];
      }
      assert Ext(h.blocks, g.blocks);
      EdgesGrow(h.blocks, g.blocks, b);
    }
  }

  function Ids(from: BlockId, n: nat): set<BlockId> { set b: nat | b < from + n && Between(from, b, n) }

  /** Append empty blocks. */
  lemma NewBlocksTidy(g: Gen, n: nat)
    requires Ok(g) && Open(g.blocks[g.cur]) && NoDangling(g.blocks)
    ensures TidyOpen(g, NewBlocks(g, n), Ids(|g.blocks|, n), {})
    ensures forall b: nat :: Preds(NewBlocks(g, n).blocks, b) == Preds(g.blocks, b)
    ensures forall b | |g.blocks| <= b < |g.blocks| + n :: NewBlocks(g, n).blocks[b] == [] && Preds(NewBlocks(g, n).blocks, b) == {}
  {
    var h := NewBlocks(g, n);
    forall b: nat ensures Preds(h.blocks, b) == Preds(g.blocks, b) {
      NewBlocksEdges(g, n, b);
    }
  }

  /** Leave the current block by a jump to pending or outer blocks, and go on in a pending block. */
  lemma JumpTidy(f: Gen, g: Gen, i: Instr, to: BlockId, pending: set<BlockId>, outer: set<BlockId>)
    requires TidyOpen(f, g, pending, outer) && IsTerminator(i) && to in pending
    requires forall b | b in Targets(i) :: b < |g.blocks| && (b in outer || (|f.blocks| <= b && NoPhi(g.blocks[b])))
    ensures TidyOpen(f, Move(Emit(g, i), to), pending - {to}, outer)
    ensures forall b: nat :: Preds(Emit(g, i).blocks, b) == Preds(g.blocks, b) + if b in Targets(i) then {g.cur} else {}
  {
    var h := Emit(g, i);
    EmitClosed(g, i);
    forall b: nat ensures Preds(h.blocks, b) == Preds(g.blocks, b) + if b in Targets(i) then {g.cur} else {} {
      EmitEdges(g, i, b);
    }
    EmitKeepsExact(f, g, i, outer);
    var k := Move(h, to);
    assert AllClosed(f, k, pending - {to});
    assert k.blocks[to] == [];
  }

  lemma EmitClosed(g: Gen, i: Instr)
    requires Ok(g) && Open(g.blocks[g.cur]) && IsTerminator(i)
    ensures Closed(Emit(g, i).blocks[g.cur])
  {
    var b := Emit(g, i).blocks[g.cur];
    assert b == g.blocks[g.cur] + [i];
    assert b[..|b| - 1] == g.blocks[g.cur];
  }

  lemma EmitKeepsExact(f: Gen, g: Gen, i: Instr, outer: set<BlockId>)
    requires Appends(f, g) && EdgesInside(f, g, outer) && !i.Phi?
    requires forall b | b in Targets(i) :: b < |g.blocks| && (b in outer || (|f.blocks| <= b && NoPhi(g.blocks[b])))
    requires forall b: nat :: Preds(Emit(g, i).blocks, b) == Preds(g.blocks, b) + if b in Targets(i) then {g.cur} else {}
    ensures Appends(f, Emit(g, i)) && EdgesInside(f, Emit(g, i), outer)
  {
    hide Preds, Targets, Sources;
    var h := Emit(g, i);
    assert h.blocks[g.cur] == g.blocks[g.cur] + [i];
    forall b | |f.blocks| <= b < |h.blocks| ensures PhiExact(h.blocks, b) {
      assert PhiExact(g.blocks, b);
      forall k | 0 <= k < |h.blocks[b]| && h.blocks[b][k].Phi?
        ensures k == 0 && Sources(h.blocks[b][k].incoming) == Preds(h.blocks, b)
          && |Sources(h.blocks[b][k].incoming)| == |h.blocks[b][k].incoming|
      {
        assert k < |g.blocks[b]| && h.blocks[b][k] == g.blocks[b][k];
        assert b !in Targets(i);
      }
    }
  }

  /** Leave the right operand's last block for the pending merge block, whose only predecessor so far is from0,
      and put a phi there that lists from0 and the block just left. */
  lemma JoinTidy(f: Gen, g: Gen, merge: BlockId, v0: Operand, from0: BlockId, v1: Operand, pending: set<BlockId>)
    requires TidyOpen(f, g, pending, {}) && merge in pending && Preds(g.blocks, merge) == {from0} && from0 != g.cur
    ensures TidyOpen(f, Join(g, merge, v0, from0, v1).0, pending - {merge}, {})
  {
    JumpTidy(f, g, Br(merge), merge, pending, {});
    var h := Move(Emit(g, Br(merge)), merge);
    assert Preds(h.blocks, merge) == {from0, g.cur};
    assert h.blocks[merge] == [];
    PhiTidy(f, h, v0, from0, v1, g.cur, pending - {merge});
  }

  lemma PhiTidy(f: Gen, h: Gen, v0: Operand, from0: BlockId, v1: Operand, from1: BlockId, pending: set<BlockId>)
    requires TidyOpen(f, h, pending, {}) && h.cur >= |f.blocks| && h.blocks[h.cur] == []
    requires Preds(h.blocks, h.cur) == {from0, from1} && from0 != from1
    ensures TidyOpen(f, Define(h, Phi(h.regs, [(v0, from0), (v1, from1)])).0, pending, {})
  {
    var inc := [(v0, from0), (v1, from1)];
    var i := Phi(h.regs, inc);
    var k := Emit(h, i);
    assert k.blocks[h.cur] == [i];
    assert Sources(inc) == {from0, from1} by {
      assert inc[0].1 == from0 && inc[1].1 == from1;
    }
    forall b: nat ensures Preds(k.blocks, b) == Preds(h.blocks, b) {
      EmitEdges(h, i, b);
    }
    forall b | |f.blocks| <= b < |k.blocks| ensures PhiExact(k.blocks, b) {
      assert PhiExact(h.blocks, b);
      if b != h.cur { assert k.blocks[b] == h.blocks[b]; }
    }
  }
}
