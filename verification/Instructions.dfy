/** The binary instructions on words of any width. */
module Instructions {
  import opened Words
  import opened Bits
  import Cfg

  /** The low bits of a number. */
  function Low(n: int, bits: nat): (r: nat)
    ensures r < Pow2(bits)
  {
    hide Pow2;
    n % Pow2(bits)
  }

  /** None where LLVM leaves the result undefined: a zero divisor, the smallest number divided by -1, a shift by the width
      or more. */
  function Apply(op: Cfg.BinOp, x: nat, y: nat, bits: nat): (r: Cfg.Maybe)
    requires x < Pow2(bits) && y < Pow2(bits)
    ensures r.Some? ==> r.word < Pow2(bits)
  {
    hide Pow2, TruncDiv, TruncMod, BitAnd, BitOr, BitXor, Number;
    var a, b := Number(x, bits, true), Number(y, bits, true);
    match op
    case Add => Cfg.Some(Low(x + y, bits))
    case Sub => Cfg.Some(Low(x - y, bits))
    case Mul => Cfg.Some(Low(x * y, bits))
    case SDiv => if b == 0 || (2 * a == 0 - Pow2(bits) && b == -1) then Cfg.None else Cfg.Some(Low(TruncDiv(a, b), bits))
    case SRem => if b == 0 || (2 * a == 0 - Pow2(bits) && b == -1) then Cfg.None else Cfg.Some(Low(TruncMod(a, b), bits))
    case Shl => if y >= bits then Cfg.None else Cfg.Some(Bits.Shl(x, y, bits))
    case AShr => if y >= bits then Cfg.None else Cfg.Some(Low(a / Pow2(y), bits))
    case And => AndBelow(x, y, bits); Cfg.Some(BitAnd(x, y))
    case Or => OrBelow(x, y, bits); Cfg.Some(BitOr(x, y))
    case Xor => XorBelow(x, y, bits); Cfg.Some(BitXor(x, y))
  }

  /** At 64 bits they are the machine's. */
  lemma SixtyFour(op: Cfg.BinOp, x: nat, y: nat)
    requires IsWord(x) && IsWord(y)
    ensures Pow2(64) == WORD && Apply(op, x, y, 64) == Cfg.BinWord(op, x, y)
  {
    Pow2Of64();
    hide Pow2, BitAnd, BitOr, BitXor, TruncDiv, TruncMod;
  }

  // ---- arithmetic ----

  /** How a quotient and a remainder compare with the operands. */
  lemma Ratio(p: nat, d: nat)
    requires d > 0
    ensures p == (p / d) * d + p % d && p / d >= 0
    ensures p < d ==> p / d == 0 && p % d == p
    ensures p >= d ==> p / d >= 1
    ensures d <= p < 2 * d ==> p / d == 1 && p % d == p - d
    ensures d == 1 ==> p / d == p && p % d == 0
    ensures d >= 2 ==> 2 * (p / d) <= p
    ensures p / d <= p
  {
    var q := p / d;
    if d >= 2 { NotNegative(q, d); Factor(q, d); }
    if p < d { Residue(p, 0, p, d); }
    if d <= p < 2 * d { Residue(p, 1, p - d, d); }
  }

  lemma Factor(q: nat, d: nat)
    requires d >= 2
    ensures q * d >= 2 * q
  {
  }

  /** Truncating division keeps magnitudes. */
  lemma Signs(p: nat, d: nat)
    requires d > 0
    ensures TruncDiv(p, d) == p / d && TruncDiv(0 - p, d) == 0 - p / d
    ensures TruncDiv(p, 0 - d) == 0 - p / d && TruncDiv(0 - p, 0 - d) == p / d
    ensures TruncMod(p, d) == p % d && TruncMod(0 - p, d) == 0 - p % d
    ensures TruncMod(p, 0 - d) == p % d && TruncMod(0 - p, 0 - d) == 0 - p % d
  {
  }

  /** Division of a negative number by a positive one, rounded down. */
  lemma Floor(a: int, d: nat)
    requires a < 0 && d > 0
    ensures a <= a / d < 0 && (d == 1 ==> a / d == a)
  {
    var q, r := a / d, a % d;
    assert a == d * q + r;
    if q >= 0 { NotNegative(q, d); }
    if q < a {
      NotNegative(a - 1 - q, d);
      Distribute(a - 1, 0 - q, d);
      Negated(q, d);
      if d > 1 { NotNegative(0 - a, d - 1); }
    }
  }

  // ---- the instructions on numbers ----

  predicate InRange(n: int, bits: nat, signed: bool) {
    if signed then 0 - Pow2(bits) <= 2 * n < Pow2(bits) else 0 <= n < Pow2(bits)
  }

  /** The low bits of a number stand for it exactly when it is in range. */
  lemma LowNumber(n: int, bits: nat, signed: bool)
    ensures Number(Low(n, bits), bits, signed) == n <==> InRange(n, bits, signed)
  {
    hide Pow2;
    SignedResidue(n, n, Pow2(bits));
    if 0 <= n < Pow2(bits) { SmallResidue(n, Pow2(bits)); }
  }

  /** A word and its number differ by a multiple of the power. */
  lemma NumberIs(x: nat, bits: nat, signed: bool) returns (k: int)
    ensures Number(x, bits, signed) == x + k * Pow2(bits) && -1 <= k <= 0
  {
    hide Pow2;
    k := if signed && 2 * x >= Pow2(bits) then -1 else 0;
  }

  /** Sums, differences, products and shifts to the left are the exact ones modulo the width, whether the words are read with
      a sign or without, so they are exact exactly when the result is in range. */
  lemma RingNumbers(op: Cfg.BinOp, x: nat, y: nat, bits: nat, signed: bool)
    requires x < Pow2(bits) && y < Pow2(bits) && (op.Add? || op.Sub? || op.Mul? || (op.Shl? && y < bits))
    ensures var a, b := Number(x, bits, signed), Number(y, bits, signed);
      var n := match op case Add => a + b case Sub => a - b case Mul => a * b case _ => a * Pow2(y);
      && Apply(op, x, y, bits) == Cfg.Some(Low(n, bits))
      && (Number(Low(n, bits), bits, signed) == n <==> InRange(n, bits, signed))
  {
    hide Pow2, Number, BitAnd, BitOr, BitXor, InRange;
    var m := Pow2(bits);
    var k := NumberIs(x, bits, signed);
    var l := NumberIs(y, bits, signed);
    var a, b := Number(x, bits, signed), Number(y, bits, signed);
    match op {
      case Add =>
        Distribute(k, l, m);
        ModPlus(x + y, k + l, m);
        LowNumber(a + b, bits, signed);
      case Sub =>
        Negated(l, m);
        Distribute(k, 0 - l, m);
        ModPlus(x - y, k - l, m);
        LowNumber(a - b, bits, signed);
      case Mul =>
        Product(x, y, k, l, m);
        ModPlus(x * y, k * y + l * x + k * l * m, m);
        LowNumber(a * b, bits, signed);
      case _ =>
        Scaled(x, k, m, Pow2(y));
        ModPlus(x * Pow2(y), k * Pow2(y), m);
        LowNumber(a * Pow2(y), bits, signed);
    }
  }

  lemma Product(x: int, y: int, k: int, l: int, m: int)
    ensures (x + k * m) * (y + l * m) == x * y + (k * y + l * x + k * l * m) * m
  {
  }

  lemma Scaled(x: int, k: int, m: int, p: int)
    ensures (x + k * m) * p == x * p + (k * p) * m
  {
  }

  /** Division, remainder and the shift to the right are those of the signed numbers, and always in range. */
  lemma SignedNumbers(op: Cfg.BinOp, x: nat, y: nat, bits: nat)
    requires bits > 0 && x < Pow2(bits) && y < Pow2(bits) && (op.SDiv? || op.SRem? || op.AShr?) && Apply(op, x, y, bits).Some?
    ensures var a, b, r := Number(x, bits, true), Number(y, bits, true), Number(Apply(op, x, y, bits).word, bits, true);
      && (op.SDiv? ==> b != 0 && r == TruncDiv(a, b))
      && (op.SRem? ==> b != 0 && r == TruncMod(a, b))
      && (op.AShr? ==> r == a / Pow2(y))
  {
    hide Pow2, TruncDiv, TruncMod, Low, Number;
    var a, b := Number(x, bits, true), Number(y, bits, true);
    SignedRange(x, bits);
    if op.AShr? {
      if a < 0 { Floor(a, Pow2(y)); } else { Ratio(a, Pow2(y)); }
      LowNumber(a / Pow2(y), bits, true);
    } else {
      var p, d := if a < 0 then 0 - a else a, if b < 0 then 0 - b else b;
      Ratio(p, d);
      Signs(p, d);
      LowNumber(TruncDiv(a, b), bits, true);
      LowNumber(TruncMod(a, b), bits, true);
    }
  }

  lemma SignedRange(x: nat, bits: nat)
    requires bits > 0 && x < Pow2(bits)
    ensures InRange(Number(x, bits, true), bits, true)
  {
  }

  /** The bitwise instructions work bit by bit. */
  lemma BitwiseBits(op: Cfg.BinOp, x: nat, y: nat, bits: nat, i: nat)
    requires x < Pow2(bits) && y < Pow2(bits) && (op.And? || op.Or? || op.Xor?)
    ensures Apply(op, x, y, bits).Some?
    ensures Bit(Apply(op, x, y, bits).word, i) == match op case And => Bit(x, i) && Bit(y, i) case Or => Bit(x, i) || Bit(y, i) case _ => Bit(x, i) != Bit(y, i)
  {
    hide Pow2, BitAnd, BitOr, BitXor, Bit;
    BitOfAnd(x, y, i);
    BitOfOr(x, y, i);
    BitOfXor(x, y, i);
  }
}
