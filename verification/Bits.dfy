/** Machine operations on words of any width, one bit at a time. */
module Bits {
  import opened Words

  function Shl(x: nat, k: nat, w: nat): (r: nat)
    ensures r < Pow2(w)
  {
    x * Pow2(k) % Pow2(w)
  }

  function LShr(x: nat, k: nat): nat {
    hide Pow2;
    Quotient(x, Pow2(k));
    x / Pow2(k)
  }

  lemma Quotient(x: nat, d: nat)
    requires d > 0
    ensures x / d >= 0
  {
  }

  function Not(x: nat, w: nat): (r: nat)
    requires x < Pow2(w)
    ensures r < Pow2(w)
  {
    Pow2(w) - 1 - x
  }

  function Ones(w: nat): nat { Pow2(w) - 1 }

  /** A signed integer cast: the low bits when narrowing, copies of the sign bit when widening. */
  function Cast(x: nat, from: nat, to: nat): (r: nat)
    requires x < Pow2(from)
    ensures r < Pow2(to)
  {
    if to <= from then x % Pow2(to)
    else
      Pow2Less(from, to);
      if from > 0 && Bit(x, from - 1) then x + Pow2(to) - Pow2(from) else x
  }

  /** The number that the word x of the given width stands for; LLVM integers carry no sign of their own. */
  function Number(x: nat, bits: nat, signed: bool): int { if signed && 2 * x >= Pow2(bits) then x - Pow2(bits) else x }

  lemma {:induction false} Pow2Less(a: nat, b: nat)
    requires a <= b
    ensures Pow2(a) <= Pow2(b)
  {
    if a < b { Pow2Less(a, b - 1); }
  }

  lemma {:induction false} BitOfMod(x: nat, w: nat, i: nat)
    ensures Bit(x % Pow2(w), i) <==> i < w && Bit(x, i)
    decreases w
  {
    if w == 0 {
      BitOfZero(i);
    } else {
      ModHalf(x, Pow2(w - 1));
      if i > 0 { BitOfMod(x / 2, w - 1, i - 1); }
    }
  }

  lemma ModHalf(x: nat, p: nat)
    requires p > 0
    ensures x % (2 * p) == 2 * (x / 2 % p) + x % 2
    ensures x % (2 * p) % 2 == x % 2 && x % (2 * p) / 2 == x / 2 % p
  {
    var h, b := x / 2, x % 2;
    var q, r := h / p, h % p;
    assert x == 2 * h + b && h == p * q + r;
    assert x == (2 * p) * q + (2 * r + b) by { Regroup(p, q, r, b); }
    Remainder(x, 2 * p, q, 2 * r + b);
  }

  lemma Regroup(p: nat, q: nat, r: nat, b: nat)
    ensures 2 * (p * q + r) + b == (2 * p) * q + (2 * r + b)
  {
  }

  lemma Remainder(x: nat, d: nat, q: nat, r: nat)
    requires d > 0 && x == d * q + r && r < d
    ensures x % d == r && x / d == q
  {
    var q', r' := x / d, x % d;
    assert x == d * q' + r';
    Step(d, q);
    Step(d, q');
    if q' < q { Below(d, q' + 1, q); } else if q < q' { Below(d, q + 1, q'); }
  }

  lemma Step(d: nat, q: nat)
    ensures d * (q + 1) == d * q + d
  {
  }

  lemma Below(d: nat, a: nat, b: nat)
    requires a <= b
    ensures d * a <= d * b
  {
  }

  lemma {:induction false} BitOfTimes(x: nat, k: nat, i: nat)
    ensures Bit(x * Pow2(k), i) <==> i >= k && Bit(x, i - k)
    decreases k
  {
    if k > 0 {
      Doubled(x, Pow2(k - 1));
      if i > 0 { BitOfTimes(x, k - 1, i - 1); }
    }
  }

  lemma Doubled(x: nat, p: nat)
    ensures x * (2 * p) == 2 * (x * p) && x * (2 * p) / 2 == x * p && x * (2 * p) % 2 == 0
  {
  }

  lemma BitOfShl(x: nat, k: nat, w: nat, i: nat)
    ensures Bit(Shl(x, k, w), i) <==> k <= i < w && Bit(x, i - k)
  {
    BitOfMod(x * Pow2(k), w, i);
    BitOfTimes(x, k, i);
  }

  lemma {:induction false} BitOfShr(x: nat, k: nat, i: nat)
    ensures Bit(LShr(x, k), i) <==> Bit(x, i + k)
    decreases k
  {
    if k > 0 {
      Halves(x, Pow2(k - 1));
      BitOfShr(x / 2, k - 1, i);
    }
  }

  lemma Halves(x: nat, p: nat)
    requires p > 0
    ensures x / (2 * p) == x / 2 / p
  {
    var h, b := x / 2, x % 2;
    var q, r := h / p, h % p;
    assert x == (2 * p) * q + (2 * r + b) by { Regroup(p, q, r, b); }
    Remainder(x, 2 * p, q, 2 * r + b);
  }

  lemma {:induction false} BitOfNot(x: nat, w: nat, i: nat)
    requires x < Pow2(w)
    ensures Bit(Not(x, w), i) <==> i < w && !Bit(x, i)
    decreases w
  {
    if w == 0 {
      BitOfZero(i);
    } else {
      var y := Not(x, w);
      assert y % 2 == 1 - x % 2 && y / 2 == Not(x / 2, w - 1);
      if i > 0 { BitOfNot(x / 2, w - 1, i - 1); }
    }
  }

  lemma BitOfOnes(w: nat, i: nat)
    ensures Bit(Ones(w), i) <==> i < w
  {
    BitOfNot(0, w, i);
    BitOfZero(i);
  }

  /** The bits of a cast: the value's own, then its sign. */
  lemma BitOfCast(x: nat, from: nat, to: nat, i: nat)
    requires x < Pow2(from)
    ensures Bit(Cast(x, from, to), i) <==> i < to && (if i < from then Bit(x, i) else from > 0 && Bit(x, from - 1))
  {
    if to <= from {
      BitOfMod(x, to, i);
    } else {
      if i >= from { BitAbove(x, from, i); }
      if from > 0 && Bit(x, from - 1) {
        SignBits(from, to, x, i);
      } else if i >= to {
        Pow2Less(from, to);
        BitAbove(x, to, i);
      }
    }
  }

  lemma {:induction false} SignBits(from: nat, to: nat, x: nat, i: nat)
    requires from <= to && x < Pow2(from)
    ensures Pow2(to) >= Pow2(from)
    ensures Bit(x + Pow2(to) - Pow2(from), i) <==> i < to && (i >= from || Bit(x, i))
    decreases from
  {
    Pow2Less(from, to);
    if from == 0 {
      BitOfOnes(to, i);
    } else {
      Pow2Less(from - 1, to - 1);
      var y := x + Pow2(to) - Pow2(from);
      assert y % 2 == x % 2 && y / 2 == x / 2 + Pow2(to - 1) - Pow2(from - 1);
      if i > 0 { SignBits(from - 1, to - 1, x / 2, i - 1); }
    }
  }

  lemma AndBelow(x: nat, y: nat, w: nat)
    requires x < Pow2(w)
    ensures BitAnd(x, y) < Pow2(w)
  {
  }

  lemma OrBelow(x: nat, y: nat, w: nat)
    requires x < Pow2(w) && y < Pow2(w)
    ensures BitOr(x, y) < Pow2(w)
  {
    forall i: nat | i >= w ensures !Bit(BitOr(x, y), i) {
      BitOfOr(x, y, i);
      BitAbove(x, w, i);
      BitAbove(y, w, i);
    }
    BitsBelow(BitOr(x, y), w);
  }

  lemma XorBelow(x: nat, y: nat, w: nat)
    requires x < Pow2(w) && y < Pow2(w)
    ensures BitXor(x, y) < Pow2(w)
  {
    forall i: nat | i >= w ensures !Bit(BitXor(x, y), i) {
      BitOfXor(x, y, i);
      BitAbove(x, w, i);
      BitAbove(y, w, i);
    }
    BitsBelow(BitXor(x, y), w);
  }

  ghost predicate NoBits(x: nat, from: nat) { forall i: nat | i >= from :: !Bit(x, i) }

  /** A value is below 2^k exactly when it has no bit from k on. */
  lemma BelowBits(x: nat, k: nat)
    ensures x < Pow2(k) <==> NoBits(x, k)
  {
    if x < Pow2(k) {
      forall i: nat | i >= k ensures !Bit(x, i) { BitAbove(x, k, i); }
    }
    if NoBits(x, k) { BitsBelow(x, k); }
  }

  // ---- residues ----

  lemma ModPlus(x: int, q: int, m: int)
    requires m > 0
    ensures (x + q * m) % m == x % m
  {
    var d, r := x / m, x % m;
    Distribute(d, q, m);
    assert x + q * m == (d + q) * m + r;
    Residue(x + q * m, d + q, r, m);
  }

  lemma Distribute(d: int, q: int, m: int)
    ensures (d + q) * m == d * m + q * m
  {
  }

  lemma Residue(x: int, q: int, r: int, m: int)
    requires m > 0 && x == q * m + r && 0 <= r < m
    ensures x % m == r
  {
    var q', r' := x / m, x % m;
    Distribute(q, -q', m);
    Distribute(-q', q', m);
    assert (q - q') * m == r' - r;
    if q > q' { Grow(q - q', m); } else if q < q' { Grow(q' - q, m); Distribute(q - q', q' - q, m); }
  }

  lemma Grow(q: int, m: int)
    requires q >= 1 && m > 0
    ensures q * m >= m
  {
    Distribute(q - 1, 1, m);
    NotNegative(q - 1, m);
  }

  lemma NotNegative(q: int, m: int)
    requires q >= 0 && m > 0
    ensures q * m >= 0
  {
  }

  lemma SmallResidue(x: int, m: int)
    requires 0 <= x < m
    ensures x % m == x
  {
  }

  lemma NoShift(x: int, p: nat, m: nat)
    requires 0 < p < m
    ensures (x + p) % m != x % m
  {
    var q, r := x / m, x % m;
    if r + p < m {
      Residue(x + p, q, r + p, m);
    } else {
      Distribute(q, 1, m);
      Residue(x + p, q + 1, r + p - m, m);
    }
  }

  /** Reducing modulo the larger power first does not matter. */
  lemma ModMod(x: int, k: nat, w: nat)
    requires k <= w
    ensures x % Pow2(w) % Pow2(k) == x % Pow2(k)
  {
    Pow2Sum(w - k, k);
    var q, m := x / Pow2(w), Pow2(w);
    assert x == q * m + x % m;
    Reassociate(q, Pow2(w - k), Pow2(k));
    ModPlus(x % m, q * Pow2(w - k), Pow2(k));
  }

  lemma Reassociate(q: int, a: nat, b: nat)
    ensures q * (a * b) == (q * a) * b
  {
  }

  lemma {:induction false} Pow2Grows(a: nat, b: nat)
    requires a < b
    ensures 2 * Pow2(a) <= Pow2(b)
    decreases b
  {
    if a < b - 1 { Pow2Grows(a, b - 1); }
  }

  lemma Negated(q: int, m: int)
    ensures (0 - q) * m == 0 - q * m
  {
  }

  lemma Narrowed(x: int, from: nat, to: nat)
    requires to <= from
    ensures (x - Pow2(from)) % Pow2(to) == x % Pow2(to)
  {
    hide Pow2;
    Pow2Sum(from - to, to);
    Negated(Pow2(from - to), Pow2(to));
    ModPlus(x, 0 - Pow2(from - to), Pow2(to));
  }

  /** Adding a power of two changes the residue modulo another one exactly when that one is larger. */
  lemma AddedPower(x: int, m: nat, held: nat)
    ensures (x + Pow2(held)) % Pow2(m) == x % Pow2(m) <==> m <= held
  {
    hide Pow2;
    if m <= held {
      Pow2Sum(held - m, m);
      ModPlus(x, Pow2(held - m), Pow2(m));
    } else {
      Pow2Grows(held, m);
      NoShift(x, Pow2(held), Pow2(m));
    }
  }

  /** The number with a given residue in the signed range. */
  lemma SignedResidue(x: int, s: int, m: nat)
    requires m > 0
    ensures (if 2 * (s % m) >= m then s % m - m else s % m) == x <==> 0 - m <= 2 * x < m && x % m == s % m
  {
    var r := s % m;
    if 2 * r >= m { Residue(r - m, -1, r, m); } else { SmallResidue(r, m); }
    if 0 - m <= 2 * x < m {
      if x < 0 { Residue(x, -1, x + m, m); } else { SmallResidue(x, m); }
    }
  }

  lemma TopBit(x: nat, n: nat)
    requires 0 < n && x < Pow2(n)
    ensures Bit(x, n - 1) <==> 2 * x >= Pow2(n)
  {
    BelowBits(x, n - 1);
    if NoBits(x, n - 1) {
    } else {
      var i: nat :| i >= n - 1 && Bit(x, i);
      if i >= n { BitAbove(x, n, i); }
    }
  }
}
