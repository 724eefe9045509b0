module UnsignedOperands {
  // Unsigned integers. The generator emits the signed division, remainder, right shift and comparisons for every integer
  // type. They are right for an unsigned type exactly on the operands given here, whatever the width.

  import opened Words
  import opened Bits
  import opened Instructions
  import Cfg

  /** What an operator means on unsigned words. The others do not depend on the sign: Instructions.RingNumbers and
      Instructions.BitwiseBits say what they compute. */
  function Meant(op: Cfg.BinOp, x: nat, y: nat, bits: nat): Cfg.Maybe
    requires x < Pow2(bits) && y < Pow2(bits)
  {
    match op
    case SDiv => if y == 0 then Cfg.None else Cfg.Some(Quot(x, y))
    case SRem => if y == 0 then Cfg.None else Cfg.Some(Rem(x, y))
    case AShr => if y >= bits then Cfg.None else Cfg.Some(LShr(x, y))
    case _ => Apply(op, x, y, bits)
  }

  function Quot(x: nat, y: nat): nat
    requires y > 0
  {
    Quotient(x, y);
    x / y
  }

  function Rem(x: nat, y: nat): nat
    requires y > 0
  {
    x % y
  }

  predicate Top(x: nat, bits: nat) { 2 * x >= Pow2(bits) }

  /** The operands for which the emitted division is right. */
  predicate DivRight(x: nat, y: nat, bits: nat) {
    if Top(x, bits) then (if Top(y, bits) then x == y else y <= 1)
    else Top(y, bits) ==> x + y < Pow2(bits)
  }

  /** And the remainder: a divisor that leaves the top bit clear has to divide the dividend and the size of the type. */
  predicate RemRight(x: nat, y: nat, bits: nat) {
    if Top(x, bits) then (if Top(y, bits) then x == y else y == 0 || (x % y == 0 && Pow2(bits) % y == 0))
    else Top(y, bits) ==> x + y < Pow2(bits)
  }

  predicate Right(op: Cfg.BinOp, x: nat, y: nat, bits: nat) {
    match op
    case SDiv => DivRight(x, y, bits)
    case SRem => RemRight(x, y, bits)
    case AShr => Top(x, bits) ==> y == 0 || y >= bits
    case _ => true
  }

  // ---- arithmetic ----

  lemma TwoHalves(bits: nat)
    requires bits > 1
    ensures Pow2(bits) == 2 * Pow2(bits - 1) && Pow2(bits - 1) >= 2
  {
    assert Pow2(bits - 1) == 2 * Pow2(bits - 2);
  }

  /** The word of a small negative number. */
  lemma LowNegative(q: nat, bits: nat)
    requires q < Pow2(bits)
    ensures Low(0 - q, bits) == if q == 0 then 0 else Pow2(bits) - q
    ensures Low(q, bits) == q
  {
    hide Pow2;
    if q > 0 { Residue(0 - q, -1, Pow2(bits) - q, Pow2(bits)); } else { SmallResidue(0, Pow2(bits)); }
    SmallResidue(q, Pow2(bits));
  }

  // ---- division ----

  /** The magnitude of the signed reading. */
  function Magnitude(x: nat, bits: nat): int { if Top(x, bits) then Pow2(bits) - x else x }

  /** The smallest number divided by -1. */
  predicate Overflows(x: nat, y: nat, bits: nat) { 2 * x == Pow2(bits) && y == Pow2(bits) - 1 }

  lemma DivIs(x: nat, y: nat, bits: nat)
    requires bits > 1 && x < Pow2(bits) && 0 < y < Pow2(bits)
    ensures 0 <= Magnitude(x, bits) <= x && 0 < Magnitude(y, bits) <= y
    ensures var p, d := Magnitude(x, bits), Magnitude(y, bits);
      if Overflows(x, y, bits) then Apply(Cfg.SDiv, x, y, bits) == Apply(Cfg.SRem, x, y, bits) == Cfg.None
      else
        && Apply(Cfg.SDiv, x, y, bits) == Cfg.Some(Low(if Top(x, bits) == Top(y, bits) then p / d else 0 - p / d, bits))
        && Apply(Cfg.SRem, x, y, bits) == Cfg.Some(Low(if Top(x, bits) then 0 - p % d else p % d, bits))
  {
    hide Pow2, TruncDiv, TruncMod, Low;
    TwoHalves(bits);
    Signs(Magnitude(x, bits), Magnitude(y, bits));
  }

  lemma DivExactly(x: nat, y: nat, bits: nat)
    requires bits > 1 && x < Pow2(bits) && y < Pow2(bits)
    ensures Apply(Cfg.SDiv, x, y, bits) == Meant(Cfg.SDiv, x, y, bits) <==> DivRight(x, y, bits)
  {
    hide Pow2, Low, TruncDiv, TruncMod;
    TwoHalves(bits);
    if y > 0 {
      hide Apply;
      var p, d := Magnitude(x, bits), Magnitude(y, bits);
      DivIs(x, y, bits);
      Ratio(x, y);
      Ratio(p, d);
      LowNegative(p / d, bits);
    }
  }

  lemma RemExactly(x: nat, y: nat, bits: nat)
    requires bits > 1 && x < Pow2(bits) && y < Pow2(bits)
    ensures Apply(Cfg.SRem, x, y, bits) == Meant(Cfg.SRem, x, y, bits) <==> RemRight(x, y, bits)
  {
    hide Pow2, Low, TruncDiv, TruncMod;
    TwoHalves(bits);
    if y > 0 {
      hide Apply;
      var p, d := Magnitude(x, bits), Magnitude(y, bits);
      DivIs(x, y, bits);
      Ratio(x, y);
      Ratio(p, d);
      LowNegative(p % d, bits);
      if Top(x, bits) && x % y == 0 { ModPlus(p, x / y, y); }
    }
  }

  lemma ShiftExactly(x: nat, y: nat, bits: nat)
    requires bits > 1 && x < Pow2(bits) && y < Pow2(bits)
    ensures Apply(Cfg.AShr, x, y, bits) == Meant(Cfg.AShr, x, y, bits) <==> Right(Cfg.AShr, x, y, bits)
  {
    hide Pow2, Low, Apply;
    ShiftIs(x, y, bits);
    if y < bits {
      if Top(x, bits) { TopShift(x, y, bits); } else { LowNegative(x / Pow2(y), bits); }
    }
  }

  /** An arithmetic shift of a word with its top bit keeps that bit. */
  lemma TopShift(x: nat, y: nat, bits: nat)
    requires bits > 1 && x < Pow2(bits) && Top(x, bits) && y < bits
    ensures Low((x - Pow2(bits)) / Pow2(y), bits) == x / Pow2(y) <==> y == 0
  {
    hide Pow2, Low;
    var m, d := Pow2(bits), Pow2(y);
    Floor(x - m, d);
    var q := (x - m) / d;
    LowNegative(0 - q, bits);
    if y == 0 {
      ShiftByNone(x);
    } else {
      Pow2Grows(0, y);
      PowPositive(0);
      Halved(x, d);
    }
  }

  lemma PowPositive(k: nat)
    ensures Pow2(k) >= 1
  {
  }

  lemma ShiftByNone(x: nat)
    ensures Pow2(0) == 1 && x / Pow2(0) == x
  {
  }

  lemma ShiftIs(x: nat, y: nat, bits: nat)
    requires x < Pow2(bits) && y < Pow2(bits)
    ensures 0 <= x / Pow2(y) <= x
    ensures Apply(Cfg.AShr, x, y, bits)
      == if y >= bits then Cfg.None else Cfg.Some(Low((if Top(x, bits) then x - Pow2(bits) else x) / Pow2(y), bits))
  {
    Ratio(x, Pow2(y));
    hide Low;
  }

  lemma Halved(x: nat, d: nat)
    requires d >= 2
    ensures 2 * (x / d) <= x
  {
    Ratio(x, d);
  }

  /** The emitted instruction computes what the operator means exactly for these operands. */
  lemma OperatorExactly(op: Cfg.BinOp, x: nat, y: nat, bits: nat)
    requires bits > 1 && x < Pow2(bits) && y < Pow2(bits)
    ensures Apply(op, x, y, bits) == Meant(op, x, y, bits) <==> Right(op, x, y, bits)
  {
    hide Pow2, Apply, DivRight, RemRight;
    TwoHalves(bits);
    match op
    case SDiv => DivExactly(x, y, bits);
    case SRem => RemExactly(x, y, bits);
    case AShr => ShiftExactly(x, y, bits);
    case _ =>
  }

  // ---- comparisons ----

  /** What a comparison means on unsigned words. */
  predicate Holds(pred: Cfg.Pred, x: nat, y: nat) {
    match pred
    case Eq => x == y
    case Ne => x != y
    case Slt => x < y
    case Sgt => x > y
    case Sle => x <= y
    case Sge => x >= y
    case Uge => x >= y
  }

  /** The emitted comparison is right exactly when it asks for equality only, or both operands have the same top bit. */
  lemma ComparisonExactly(pred: Cfg.Pred, x: nat, y: nat, bits: nat)
    requires bits > 0 && x < Pow2(bits) && y < Pow2(bits) && pred != Cfg.Uge
    ensures Cfg.Compare(pred, x, y, bits) == Holds(pred, x, y) <==> pred.Eq? || pred.Ne? || Top(x, bits) == Top(y, bits)
  {
    assert Pow2(bits) == 2 * Pow2(bits - 1);
    hide Pow2;
  }

  // ---- inputs ----

  /** For u8 operands 200 < 100 holds, 200 / 2 is 228, 200 % 3 is 254, and 200 >> 1 is 228. */
  lemma TwoHundred()
    ensures Pow2(8) == 256 && Cfg.Compare(Cfg.Slt, 200, 100, 8)
    ensures Apply(Cfg.SDiv, 200, 2, 8) == Cfg.Some(228) && Apply(Cfg.SRem, 200, 3, 8) == Cfg.Some(254)
    ensures Apply(Cfg.AShr, 200, 1, 8) == Cfg.Some(228)
  {
    assert Pow2(4) == 16;
    assert Pow2(8) == 16 * Pow2(4);
    assert Pow2(7) == 8 * Pow2(4);
    assert Pow2(1) == 2;
    hide Pow2;
  }
}
