module NarrowIndex {
  // Bounds checks of indices narrower than 64 bits. The check widens the index without its sign, so that a negative
  // index looks like a large one that may be inside a long array.

  import opened Words
  import opened Cfg
  import opened Lower
  import opened Growth
  import opened Simulation
  import Bits

  /** The word that holds the number n at a width. */
  function Held(n: int, width: nat): (w: nat) { n % Pow2(width) }

  /** A signed number of a width. */
  predicate OfWidth(n: int, width: nat) { 0 < width && 0 - Pow2(width - 1) <= n < Pow2(width - 1) }

  lemma HeldIs(n: int, width: nat)
    requires OfWidth(n, width)
    ensures Held(n, width) == if n >= 0 then n else n + Pow2(width)
  {
    assert Pow2(width) == 2 * Pow2(width - 1);
    hide Pow2;
    HeldMod(n, Pow2(width));
  }

  lemma HeldMod(n: int, m: nat)
    requires 0 - m <= n < m && m > 0
    ensures n % m == if n >= 0 then n else n + m
  {
    if n >= 0 {
      Bits.SmallResidue(n, m);
    } else {
      Bits.Residue(n, -1, n + m, m);
    }
  }

  // ---- the emitted check ----

  lemma Widens(w: nat, width: nat)
    requires 0 < width <= 64 && w < Pow2(width)
    ensures w < WORD
  {
    Pow2Of64();
    Bits.Pow2Less(width, 64);
  }

  /** Whatever the width, the check traps exactly when the word is not below the length, and hands on the word. */
  lemma CheckRuns(code: seq<Block>, g: Gen, v: Typed, len: nat, c: Config, w: nat) returns (k: nat, d: Config)
    requires At(c, g) && Known(g, v.op) && Ext(code, BoundsCheck(g, v, len).0.blocks) && g.checks
    requires 0 < v.width <= 64 && len < HALF && w < Pow2(v.width) && Holds(c, v.op, w)
    ensures d == Run(code, c, k)
    ensures if w >= len then d == Trapped
      else At(d, BoundsCheck(g, v, len).0) && Holds(d, BoundsCheck(g, v, len).1, w) && SameRegs(c, d, g.regs) && d.mem == c.mem
  {
    hide Ext, Run, BoundsCheck, Resize, SameRegs, Pow2;
    Widens(w, v.width);
    ToWordToInt(w);
    var (g0, index) := Resize(g, v, 64);
    Split(code, g, v, len);
    var m, c0 := WidenRuns(code, g, v, c, w);
    var j;
    j, d := BoundsCheckRuns(code, g0, Typed(index, 64), len, c0, ToInt(w));
    Then(code, c, m, c0, j, d);
    k := m + j;
    if w < len { SameRegsTrans(c, c0, d, g.regs, g0.regs); }
  }

  /** The check of the widened index is the rest of the check. */
  lemma Split(code: seq<Block>, g: Gen, v: Typed, len: nat)
    requires Ok(g) && Known(g, v.op) && g.checks && v.width <= 64 && Ext(code, BoundsCheck(g, v, len).0.blocks)
    ensures var (g0, index) := Resize(g, v, 64);
      Ext(code, g0.blocks) && BoundsCheck(g, v, len) == BoundsCheck(g0, Typed(index, 64), len)
  {
    hide Ext, Grows, Define, Fork, Emit;
    var (g0, index) := Resize(g, v, 64);
    BoundsCheckGrows(g0, Typed(index, 64), len);
    ExtDown(code, g0, BoundsCheck(g0, Typed(index, 64), len).0);
  }

  lemma WidenRuns(code: seq<Block>, g: Gen, v: Typed, c: Config, w: nat) returns (m: nat, d: Config)
    requires At(c, g) && Known(g, v.op) && v.width <= 64 && Holds(c, v.op, w) && Ext(code, Resize(g, v, 64).0.blocks)
    ensures d == Run(code, c, m) && At(d, Resize(g, v, 64).0) && Holds(d, Resize(g, v, 64).1, w) && SameRegs(c, d, g.regs) && d.mem == c.mem
  {
    if v.width == 64 {
      m, d := 0, c;
    } else {
      m := 1;
      d := DefineRuns(code, g, Cast(g.regs, ZExt, v.op, v.width, 64), c, w);
    }
  }

  // ---- when it decides right ----

  /** The check passes exactly for the numbers inside. */
  ghost predicate Decides(n: int, width: nat, len: nat) { Held(n, width) < len <==> 0 <= n < len }

  lemma DecidesOne(n: int, width: nat, len: nat)
    requires OfWidth(n, width)
    ensures Decides(n, width, len) <==> n >= 0 || len <= n + Pow2(width)
  {
    assert Pow2(width) == 2 * Pow2(width - 1);
    HeldIs(n, width);
  }

  ghost predicate AlwaysDecides(width: nat, len: nat) { forall n: int | OfWidth(n, width) :: Decides(n, width, len) }

  /** Every index of the width is checked right exactly when the array has no more elements than the width has numbers
      that are not negative. */
  lemma DecidesAll(width: nat, len: nat)
    requires 0 < width
    ensures AlwaysDecides(width, len) <==> len <= Pow2(width - 1)
  {
    hide Decides;
    var lowest := 0 - Pow2(width - 1);
    assert Pow2(width) == 2 * Pow2(width - 1);
    assert OfWidth(lowest, width);
    DecidesOne(lowest, width, len);
    if len <= Pow2(width - 1) {
      forall n: int | OfWidth(n, width) ensures Decides(n, width, len) { DecidesOne(n, width, len); }
    }
  }

  /** -1 as an 8-bit index into 300 elements passes as 255. */
  lemma MinusOnePasses()
    ensures OfWidth(-1, 8) && Held(-1, 8) == 255 < 300 && !Decides(-1, 8, 300)
  {
    assert Pow2(4) == 16;
    assert Pow2(7) == 8 * Pow2(4);
    assert Pow2(8) == 16 * Pow2(4);
    HeldIs(-1, 8);
    DecidesOne(-1, 8, 300);
  }
}
