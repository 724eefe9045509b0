module BitSet {
  // Bit sets: a backing word whose bit i says whether element i is a member.

  import opened Words
  import opened Bits

  /** The members a word stands for. */
  ghost function Elements(b: nat, w: nat): set<nat> { set i: nat | i < w && Bit(b, i) }

  function Single(e: nat, w: nat): nat { Shl(1, e, w) }

  lemma SingleBit(e: nat, w: nat, i: nat)
    requires e < w
    ensures Bit(Single(e, w), i) <==> i == e
  {
    BitOfShl(1, e, w, i);
    if i > e { BitAbove(1, 1, i - e); }
  }

  // ---- the same operations on sets ----

  datatype Op =
    | Include(e: nat)
    | Exclude(e: nat)
    | Union(other: nat)
    | Plus(other: nat)  // `+` between two sets, which the language calls their union
    | Intersect(other: nat)
    | Subtract(other: nat)
    | Exchange(other: nat)
    | Member(e: nat)

  /** Elements are below the backing width, and other operands are words of that width. */
  predicate InWidth(op: Op, w: nat) {
    match op
    case Include(e) => e < w
    case Exclude(e) => e < w
    case Member(e) => e < w
    case Union(o) => o < Pow2(w)
    case Plus(o) => o < Pow2(w)
    case Intersect(o) => o < Pow2(w)
    case Subtract(o) => o < Pow2(w)
    case Exchange(o) => o < Pow2(w)
  }

  ghost function SetAfter(s: set<nat>, op: Op, w: nat): set<nat> {
    match op
    case Include(e) => s + {e}
    case Exclude(e) => s - {e}
    case Union(o) => s + Elements(o, w)
    case Plus(o) => s + Elements(o, w)
    case Intersect(o) => s * Elements(o, w)
    case Subtract(o) => s - Elements(o, w)
    case Exchange(o) => (s - Elements(o, w)) + (Elements(o, w) - s)
    case Member(_) => s
  }

  ghost function SetRun(s: set<nat>, ops: seq<Op>, w: nat): set<nat> {
    if ops == [] then s else SetAfter(SetRun(s, ops[..|ops| - 1], w), ops[|ops| - 1], w)
  }

  /** Whenever two sets are added in the run, they have no element in common. */
  ghost predicate AllRight(s: set<nat>, ops: seq<Op>, w: nat) {
    ops != [] ==> AllRight(s, ops[..|ops| - 1], w) && Right(SetRun(s, ops[..|ops| - 1], w), ops[|ops| - 1], w)
  }

  /** The membership answers of a run. */
  ghost function Answers(s: set<nat>, ops: seq<Op>, w: nat): seq<bool> {
    if ops == [] then [] else
      var before := ops[..|ops| - 1];
      Answers(s, before, w) + if ops[|ops| - 1].Member? then [ops[|ops| - 1].e in SetRun(s, before, w)] else []
  }

  // ---- the word operations ----

  function WordAfter(b: nat, op: Op, w: nat): (r: nat)
    requires b < Pow2(w) && InWidth(op, w)
    ensures r < Pow2(w)
  {
    match op
    case Include(e) => OrBelow(b, Single(e, w), w); BitOr(b, Single(e, w))
    case Exclude(e) => AndBelow(b, Not(Single(e, w), w), w); BitAnd(b, Not(Single(e, w), w))
    case Union(o) => OrBelow(b, o, w); BitOr(b, o)
    case Plus(o) => (b + o) % Pow2(w)  // an integer addition
    case Intersect(o) => AndBelow(b, o, w); BitAnd(b, o)
    case Subtract(o) => AndBelow(b, Not(o, w), w); BitAnd(b, Not(o, w))
    case Exchange(o) => XorBelow(b, o, w); BitXor(b, o)
    case Member(_) => b
  }

  lemma WordBit(b: nat, op: Op, w: nat, i: nat)
    requires b < Pow2(w) && InWidth(op, w) && i < w && !op.Plus?
    ensures i in Elements(WordAfter(b, op, w), w) <==> i in SetAfter(Elements(b, w), op, w)
  {
    match op
    case Include(e) => BitOfOr(b, Single(e, w), i); SingleBit(e, w, i);
    case Exclude(e) =>
      BitOfAnd(b, Not(Single(e, w), w), i);
      BitOfNot(Single(e, w), w, i);
      SingleBit(e, w, i);
    case Union(o) => BitOfOr(b, o, i);
    case Intersect(o) => BitOfAnd(b, o, i);
    case Subtract(o) => BitOfAnd(b, Not(o, w), i); BitOfNot(o, w, i);
    case Exchange(o) => BitOfXor(b, o, i);
    case Member(_) =>
  }

  lemma OtherIsSet(b: nat, op: Op, w: nat)
    requires b < Pow2(w) && InWidth(op, w) && !op.Plus?
    ensures Elements(WordAfter(b, op, w), w) == SetAfter(Elements(b, w), op, w)
  {
    hide WordAfter;
    forall i: nat ensures i in Elements(WordAfter(b, op, w), w) <==> i in SetAfter(Elements(b, w), op, w) {
      if i < w { WordBit(b, op, w, i); }
    }
  }

  // ---- sets that are added ----

  /** A sum is the or and the and together. */
  lemma {:induction false} SumOfBits(x: nat, y: nat)
    ensures x + y == BitOr(x, y) + BitAnd(x, y)
  {
    if x > 0 && y > 0 { SumOfBits(x / 2, y / 2); }
  }

  /** Adding two words gives the word of the union exactly when no element is in both. */
  lemma PlusIsOr(b: nat, o: nat, w: nat)
    requires b < Pow2(w) && o < Pow2(w)
    ensures (b + o) % Pow2(w) == BitOr(b, o) <==> BitAnd(b, o) == 0
  {
    hide Pow2, BitOr, BitAnd;
    SumOfBits(b, o);
    OrBelow(b, o, w);
    AndBelow(b, o, w);
    SmallResidue(BitOr(b, o), Pow2(w));
    if BitAnd(b, o) != 0 { NoShift(BitOr(b, o), BitAnd(b, o), Pow2(w)); }
  }

  lemma Disjoint(b: nat, o: nat, w: nat)
    requires b < Pow2(w) && o < Pow2(w)
    ensures BitAnd(b, o) == 0 <==> Elements(b, w) !! Elements(o, w)
  {
    hide BitAnd;
    forall i: nat ensures Bit(BitAnd(b, o), i) <==> i in Elements(b, w) && i in Elements(o, w) {
      BitOfAnd(b, o, i);
      if i >= w { BitAbove(b, w, i); }
    }
    if BitAnd(b, o) == 0 {
      forall i: nat ensures !(i in Elements(b, w) && i in Elements(o, w)) { BitOfZero(i); }
    } else if Elements(b, w) !! Elements(o, w) {
      forall i: nat ensures Bit(BitAnd(b, o), i) <==> Bit(0, i) { BitOfZero(i); }
      SameBits(BitAnd(b, o), 0);
    }
  }

  /** The operations that come out right on this set: only sets without a common element may be added. */
  ghost predicate Right(s: set<nat>, op: Op, w: nat) { op.Plus? ==> s !! Elements(op.other, w) }

  /** An operation on words is the operation on sets, exactly unless sets are added that have an element in common. */
  lemma WordIsSet(b: nat, op: Op, w: nat)
    requires b < Pow2(w) && InWidth(op, w)
    ensures Elements(WordAfter(b, op, w), w) == SetAfter(Elements(b, w), op, w) <==> Right(Elements(b, w), op, w)
  {
    hide Pow2, BitOr, BitAnd, Elements;
    if op.Plus? {
      var o := op.other;
      OtherIsSet(b, Union(o), w);
      OrBelow(b, o, w);
      PlusIsOr(b, o, w);
      Disjoint(b, o, w);
      SetDecidesWord(WordAfter(b, op, w), BitOr(b, o), w);
    } else {
      OtherIsSet(b, op, w);
    }
  }

  /** {0} + {0} is {1}. */
  lemma ZeroPlusZero(w: nat)
    requires w > 1
    ensures 1 < Pow2(w) && Elements(1, w) == {0} && Elements(WordAfter(1, Plus(1), w), w) == {1}
  {
    assert Pow2(w) == 2 * Pow2(w - 1) && Pow2(w - 1) == 2 * Pow2(w - 2);
    SmallResidue(2, Pow2(w));
    forall i: nat ensures (Bit(1, i) <==> i == 0) && (Bit(2, i) <==> i == 1) {
      if i > 0 { BitOfZero(i - 1); }
      if i > 1 { BitOfZero(i - 2); }
    }
  }

  /** The set decides the word: equal sets are equal words. */
  lemma SetDecidesWord(b: nat, c: nat, w: nat)
    requires b < Pow2(w) && c < Pow2(w)
    ensures Elements(b, w) == Elements(c, w) <==> b == c
  {
    if Elements(b, w) == Elements(c, w) {
      forall i: nat ensures Bit(b, i) <==> Bit(c, i) {
        if i < w { assert i in Elements(b, w) <==> i in Elements(c, w); } else { BitAbove(b, w, i); BitAbove(c, w, i); }
      }
      SameBits(b, c);
    }
  }

  class Variable {
    const w: nat
    var backing: nat

    ghost predicate Valid()
      reads this
    {
      backing < Pow2(w)
    }

    ghost function Members(): set<nat>
      reads this
    {
      Elements(backing, w)
    }

    constructor (w: nat)
      ensures Valid() && this.w == w && Members() == {}
    {
      this.w, backing := w, 0;
      forall i: nat ensures !Bit(0, i) { BitOfZero(i); }
    }

    method Apply(op: Op)
      requires Valid() && InWidth(op, w)
      modifies this
      ensures Valid() && (Members() == SetAfter(old(Members()), op, w) <==> Right(old(Members()), op, w))
      ensures backing == WordAfter(old(backing), op, w)
    {
      WordIsSet(backing, op, w);
      backing := WordAfter(backing, op, w);
    }

    /** Membership: the element's bit is shifted down and masked. */
    method Contains(e: nat) returns (r: bool)
      requires Valid() && e < w
      ensures r == (e in Members())
    {
      var bit := BitAnd(LShr(backing, e), 1);
      BitOfAnd(LShr(backing, e), 1, 0);
      BitOfShr(backing, e, 0);
      r := bit != 0;
    }

    /** A sequence of operations agrees with the same sequence on sets, unless sets are added that have an element in
        common. */
    method Replay(ops: seq<Op>) returns (answers: seq<bool>)
      requires Valid() && forall op | op in ops :: InWidth(op, w)
      modifies this
      ensures Valid() && (AllRight(old(Members()), ops, w) ==> Members() == SetRun(old(Members()), ops, w) && answers == Answers(old(Members()), ops, w))
    {
      answers := [];
      var i := 0;
      while i < |ops|
        invariant 0 <= i <= |ops| && Valid()
        invariant AllRight(old(Members()), ops[..i], w) ==> Members() == SetRun(old(Members()), ops[..i], w) && answers == Answers(old(Members()), ops[..i], w)
      {
        assert ops[..i + 1][..i] == ops[..i] && ops[i] in ops;
        if ops[i].Member? {
          var r := Contains(ops[i].e);
          answers := answers + [r];
        } else {
          Apply(ops[i]);
        }
        i := i + 1;
      }
      assert ops[..i] == ops;
    }
  }
}
