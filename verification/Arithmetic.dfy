/** The machine instruction chosen for an operator computes the operator's meaning on encoded values. */
module Arithmetic {
  import opened Words
  import opened Cfg
  import opened Lower
  import opened Simulation
  import S = Source

  lemma TruncRange(a: int, b: int)
    requires IsInt64(a) && IsInt64(b) && b != 0 && !(a == -HALF && b == -1)
    ensures IsInt64(TruncDiv(a, b)) && IsInt64(TruncMod(a, b))
  {
    var m: nat := if a >= 0 then a else -a;
    var d: nat := if b >= 0 then b else -b;
    DivBound(m, d);
    if b < 0 { DivNegative(m, d); }
  }

  lemma DivBound(m: nat, d: nat)
    requires d > 0
    ensures 0 <= m / d <= m && (d > 1 ==> 2 * (m / d) <= m)
    ensures 0 <= m - d * (m / d) <= m
  {
    var q := m / d;
    assert m == d * q + m % d;
    assert d * q >= q by { Product(d - 1, -q); }
    if d > 1 {
      assert d * q >= 2 * q by { Product(d - 2, -q); }
    }
  }

  lemma DivNegative(m: nat, d: int)
    requires d > 0
    ensures m / (-d) == -(m / d) && (-d) * (m / (-d)) == d * (m / d)
  {
  }

  lemma Product(x: nat, y: int)
    requires y <= 0
    ensures x * y <= 0
  {
  }

  lemma ShiftRange(a: int, k: nat)
    requires IsInt64(a)
    ensures IsInt64(a / Pow2(k))
  {
    var p := Pow2(k);
    var q, r := a / p, a % p;
    assert a == p * q + r && 0 <= r < p;
    if a >= 0 {
      DivBound(a, p);
    } else {
      assert q < 0 by { if q >= 0 { Product(p, -q); } }
      assert a < p * (q + 1) <= q + 1 by { Product(p - 1, q + 1); }
    }
  }

  lemma WordTimes(a: int, k: nat)
    ensures ToWord(ToWord(a) * k) == ToWord(a * k)
  {
    var q := a / WORD;
    assert a * k == ToWord(a) * k + (q * k) * WORD by {
      calc { a * k; (q * WORD + ToWord(a)) * k; }
    }
    ModShift(ToWord(a) * k, q * k);
  }

  lemma ArithAgrees(op: S.ArithOp, a: int, b: int)
    requires IsInt64(a) && IsInt64(b)
    ensures match S.ArithInt(op, a, b)
      case Val(v) => v.I? && IsInt64(v.n) && BinWord(MachineOp(op), ToWord(a), ToWord(b)) == Some(ToWord(v.n))
      case Undefined => BinWord(MachineOp(op), ToWord(a), ToWord(b)) == None
      case OutOfBounds => false
  {
    hide BitAnd, BitOr, BitXor, Wrap;
    ToIntToWord(a);
    ToIntToWord(b);
    match op
    case Plus => WordOfWords(a, b); WrapWord(a + b);
    case Minus => WordOfWords(a, b); WrapWord(a - b);
    case Times => WordOfWords(a, b); WrapWord(a * b);
    case Divide => if b != 0 && !(a == -HALF && b == -1) { TruncRange(a, b); }
    case Modulo => if b != 0 && !(a == -HALF && b == -1) { TruncRange(a, b); }
    case ShiftLeft =>
      UnsignedCatchesBoth(b, 64);
      if 0 <= b < 64 { WordTimes(a, Pow2(b)); WrapWord(a * Pow2(b)); }
    case ShiftRight =>
      UnsignedCatchesBoth(b, 64);
      if 0 <= b < 64 { ShiftRange(a, b); }
    case BitwiseAnd => BitwiseAgrees(BitAnd(ToWord(a), ToWord(b)), ToWord(a), ToWord(b));
    case BitwiseOr => BitwiseAgrees(BitOr(ToWord(a), ToWord(b)), ToWord(a), ToWord(b));
    case BitwiseXor => BitwiseAgrees(BitXor(ToWord(a), ToWord(b)), ToWord(a), ToWord(b));
  }

  lemma BitwiseAgrees(r: nat, x: nat, y: nat)
    requires IsWord(x) && IsWord(y) && (r == BitAnd(x, y) || r == BitOr(x, y) || r == BitXor(x, y))
    ensures ToWord(ToInt(r)) == r && IsInt64(ToInt(r))
  {
    BitwiseIsWord(x, y);
    ToWordToInt(r);
  }

  lemma SignedAt64(w: nat)
    requires IsWord(w)
    ensures SignedAt(w, 64) == ToInt(w)
  {
    Pow2Of64();
    assert Pow2(64) == 2 * Pow2(63);
  }

  lemma RelAgrees(op: S.RelOp, a: int, b: int)
    requires IsInt64(a) && IsInt64(b)
    ensures Compare(MachinePred(op), ToWord(a), ToWord(b), 64) == S.RelInt(op, a, b)
  {
    ToIntToWord(a);
    ToIntToWord(b);
    SignedAt64(ToWord(a));
    SignedAt64(ToWord(b));
  }

  lemma NegateAgrees(n: int)
    requires IsInt64(n)
    ensures BinWord(Sub, 0, ToWord(n)) == Some(ToWord(Wrap(-n))) && IsInt64(Wrap(-n))
  {
    WordOfWords(0, n);
    WrapWord(-n);
  }

  /** Exclusive or with all ones complements every bit. */
  lemma {:induction false} XorOnes(x: nat, w: nat)
    requires x < Pow2(w)
    ensures BitXor(x, Pow2(w) - 1) == Pow2(w) - 1 - x
    decreases w
  {
    if w > 0 && x > 0 {
      XorOnes(x / 2, w - 1);
      var m := Pow2(w) - 1;
      assert m % 2 == 1 && m / 2 == Pow2(w - 1) - 1;
    }
  }

  lemma ComplementAgrees(n: int)
    requires IsInt64(n)
    ensures BinWord(Xor, ToWord(n), WORD - 1) == Some(ToWord(-n - 1)) && IsInt64(-n - 1)
  {
    hide Pow2, BitXor;
    Pow2Of64();
    XorOnes(ToWord(n), 64);
    if n < 0 { ModShift(n, 1); } else { ModShift(-n - 1, 1); }
  }
}
