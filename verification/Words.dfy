/** 64-bit machine words and the signed integers they stand for.
    A word is its unsigned value; LLVM integers carry no sign of their own. */
module Words {
  const WORD := 0x1_0000_0000_0000_0000
  const HALF := 0x8000_0000_0000_0000

  predicate IsWord(w: int) { 0 <= w < WORD }

  predicate IsInt64(n: int) { -HALF <= n < HALF }

  /** Two's complement encoding of any integer. */
  function ToWord(n: int): (w: nat)
    ensures IsWord(w)
  {
    n % WORD
  }

  /** The signed reading of a word. */
  function ToInt(w: int): int {
    if w < HALF then w else w - WORD
  }

  /** Signed 64-bit wrap-around. */
  function Wrap(n: int): int { ToInt(ToWord(n)) }

  function Pow2(k: nat): (p: nat)
    ensures p > 0
  {
    if k == 0 then 1 else 2 * Pow2(k - 1)
  }

  /** Division truncating toward zero, as sdiv and C's `/` do; Dafny's own `/` is Euclidean. */
  function TruncDiv(a: int, b: int): int
    requires b != 0
  {
    if a >= 0 then a / b else -((-a) / b)
  }

  function TruncMod(a: int, b: int): int
    requires b != 0
  {
    a - b * TruncDiv(a, b)
  }

  lemma ToIntToWord(n: int)
    requires IsInt64(n)
    ensures ToInt(ToWord(n)) == n
  {
    if n < 0 { assert (n + WORD) % WORD == n + WORD; ModShift(n, 1); }
  }

  lemma ToWordToInt(w: nat)
    requires IsWord(w)
    ensures ToWord(ToInt(w)) == w && IsInt64(ToInt(w))
  {
    if w >= HALF { ModShift(w, -1); }
  }

  lemma ModShift(n: int, k: int)
    ensures (n + k * WORD) % WORD == n % WORD
  {
    var q, r := n / WORD, n % WORD;
    assert n + k * WORD == (q + k) * WORD + r;
    DivModUnique(n + k * WORD, q + k, r);
  }

  lemma DivModUnique(n: int, q: int, r: int)
    requires n == q * WORD + r && 0 <= r < WORD
    ensures n % WORD == r && n / WORD == q
  {
  }

  /** Reducing an operand modulo 2^64 first does not change a sum, difference or product. */
  lemma WordOfWords(a: int, b: int)
    ensures ToWord(ToWord(a) + ToWord(b)) == ToWord(a + b)
    ensures ToWord(ToWord(a) - ToWord(b)) == ToWord(a - b)
    ensures ToWord(ToWord(a) * ToWord(b)) == ToWord(a * b)
  {
    var qa, qb := a / WORD, b / WORD;
    var wa, wb := ToWord(a), ToWord(b);
    ModShift(wa + wb, qa + qb);
    assert a + b == wa + wb + (qa + qb) * WORD;
    ModShift(wa - wb, qa - qb);
    assert a - b == wa - wb + (qa - qb) * WORD;
    var k := qa * wb + qb * wa + qa * qb * WORD;
    assert a * b == wa * wb + k * WORD by {
      calc {
        a * b;
        (qa * WORD + wa) * (qb * WORD + wb);
        wa * wb + (qa * wb + qb * wa + qa * qb * WORD) * WORD;
      }
    }
    ModShift(wa * wb, k);
  }

  lemma WrapWord(n: int)
    ensures ToWord(Wrap(n)) == ToWord(n) && IsInt64(Wrap(n))
  {
    ToWordToInt(ToWord(n));
  }

  lemma {:induction false} Pow2Sum(a: nat, b: nat)
    ensures Pow2(a + b) == Pow2(a) * Pow2(b)
  {
    if a > 0 {
      Pow2Sum(a - 1, b);
      DoubledFactor(Pow2(a - 1), Pow2(b));
    }
  }

  lemma DoubledFactor(p: nat, q: nat)
    ensures 2 * (p * q) == (2 * p) * q
  {
  }

  lemma Pow2Of64()
    ensures Pow2(64) == WORD
  {
    assert Pow2(8) == 256;
    hide Pow2;
    Pow2Sum(8, 8);
    assert Pow2(16) == 0x1_0000;
    Pow2Sum(16, 16);
    assert Pow2(32) == 0x1_0000_0000;
    Pow2Sum(32, 32);
  }

  // ---- bitwise operations on unsigned values, one binary digit at a time ----

  function BitAnd(x: nat, y: nat): (r: nat)
    ensures r <= x && r <= y
  {
    if x == 0 || y == 0 then 0 else (x % 2) * (y % 2) + 2 * BitAnd(x / 2, y / 2)
  }

  function BitOr(x: nat, y: nat): (r: nat)
    ensures r <= x + y
  {
    if x == 0 then y else if y == 0 then x
    else (x % 2 + y % 2 - (x % 2) * (y % 2)) + 2 * BitOr(x / 2, y / 2)
  }

  function BitXor(x: nat, y: nat): (r: nat)
    ensures r <= x + y
  {
    if x == 0 then y else if y == 0 then x else (x + y) % 2 + 2 * BitXor(x / 2, y / 2)
  }

  /** Bit i of x. */
  predicate Bit(x: nat, i: nat) {
    if i == 0 then x % 2 == 1 else Bit(x / 2, i - 1)
  }

  lemma {:induction false} BitOfAnd(x: nat, y: nat, i: nat)
    ensures Bit(BitAnd(x, y), i) <==> Bit(x, i) && Bit(y, i)
  {
    if x == 0 || y == 0 {
      BitOfZero(i);
    } else if i > 0 {
      BitOfAnd(x / 2, y / 2, i - 1);
    }
  }

  lemma {:induction false} BitOfOr(x: nat, y: nat, i: nat)
    ensures Bit(BitOr(x, y), i) <==> Bit(x, i) || Bit(y, i)
  {
    if x == 0 || y == 0 {
      BitOfZero(i);
    } else if i > 0 {
      BitOfOr(x / 2, y / 2, i - 1);
    }
  }

  lemma {:induction false} BitOfXor(x: nat, y: nat, i: nat)
    ensures Bit(BitXor(x, y), i) <==> Bit(x, i) != Bit(y, i)
  {
    if x == 0 || y == 0 {
      BitOfZero(i);
    } else {
      XorDigits(x, y);
      if i > 0 { BitOfXor(x / 2, y / 2, i - 1); }
    }
  }

  lemma {:induction false} XorDigits(x: nat, y: nat)
    requires x > 0 && y > 0
    ensures BitXor(x, y) / 2 == BitXor(x / 2, y / 2) && (BitXor(x, y) % 2 == 1 <==> x % 2 != y % 2)
  {
    var h := BitXor(x / 2, y / 2);
    assert BitXor(x, y) == (x + y) % 2 + 2 * h;
    hide BitXor;
    Digits((x + y) % 2, h);
    ParityOfSum(x, y);
  }

  lemma ParityOfSum(x: nat, y: nat)
    ensures (x + y) % 2 == 1 <==> x % 2 != y % 2
  {
  }

  lemma Digits(b: nat, h: nat)
    requires b < 2
    ensures (b + 2 * h) / 2 == h && (b + 2 * h) % 2 == b
  {
  }

  lemma {:induction false} BitOfZero(i: nat)
    ensures !Bit(0, i)
  {
    if i > 0 { BitOfZero(i - 1); }
  }

  /** A number below 2^w has no bit at or above w. */
  lemma {:induction false} BitAbove(x: nat, w: nat, i: nat)
    requires x < Pow2(w) && i >= w
    ensures !Bit(x, i)
  {
    if w == 0 {
      BitOfZero(i);
    } else {
      BitAbove(x / 2, w - 1, i - 1);
    }
  }

  /** Conversely a number with no bit at or above w is below 2^w, and two numbers with the same bits are equal. */
  lemma {:induction false} BitsBelow(x: nat, w: nat)
    requires forall i: nat | i >= w :: !Bit(x, i)
    ensures x < Pow2(w)
    decreases w, x
  {
    if w > 0 {
      forall i: nat | i >= w - 1 ensures !Bit(x / 2, i) { assert !Bit(x, i + 1); }
      BitsBelow(x / 2, w - 1);
    } else if x > 0 {
      assert !Bit(x, 0);
      forall i: nat ensures !Bit(x / 2, i) { assert !Bit(x, i + 1); }
      BitsBelow(x / 2, 0);
    }
  }

  lemma {:induction false} SameBits(x: nat, y: nat)
    requires forall i: nat :: Bit(x, i) <==> Bit(y, i)
    ensures x == y
    decreases x + y
  {
    if x + y > 0 {
      forall i: nat ensures Bit(x / 2, i) <==> Bit(y / 2, i) {
        assert Bit(x, i + 1) <==> Bit(y, i + 1);
      }
      SameBits(x / 2, y / 2);
      assert Bit(x, 0) <==> Bit(y, 0);
    }
  }

  lemma BitwiseIsWord(x: nat, y: nat)
    requires IsWord(x) && IsWord(y)
    ensures IsWord(BitAnd(x, y)) && IsWord(BitOr(x, y)) && IsWord(BitXor(x, y))
  {
    Pow2Of64();
    forall i: nat | i >= 64 ensures !Bit(BitOr(x, y), i) && !Bit(BitXor(x, y), i) {
      BitOfOr(x, y, i);
      BitOfXor(x, y, i);
      BitAbove(x, 64, i);
      BitAbove(y, 64, i);
    }
    BitsBelow(BitOr(x, y), 64);
    BitsBelow(BitXor(x, y), 64);
  }
}
