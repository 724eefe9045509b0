module BitField {
  // Bit fields: consecutive ranges of one backing word, written by clearing and or-ing, read by shifting and masking.

  import opened Words
  import opened Bits
  import opened Instructions
  import Cfg

  datatype Field = Field(offset: nat, width: nat, bits: nat)  // bits: the width of the field's own type

  datatype Layout = Fields(fields: seq<Field>, total: nat) | NoFields | WidthNotPositive

  // ---- declaration ----

  datatype Declared = Declared(width: int, bits: nat)

  /** The widths before field i, added up. */
  function Start(ds: seq<Declared>, i: nat): int
    requires i <= |ds|
  {
    if i == 0 then 0 else Start(ds, i - 1) + ds[i - 1].width
  }

  predicate AllPositive(ds: seq<Declared>) { forall i | 0 <= i < |ds| :: ds[i].width > 0 }

  /** The first n fields are placed one behind the other, in order of declaration. */
  ghost predicate Placed(ds: seq<Declared>, fields: seq<Field>, n: nat) {
    && n <= |ds| && |fields| == n
    && forall i: nat | i < n :: fields[i].offset == Start(ds, i) && fields[i].width == ds[i].width && fields[i].bits == ds[i].bits
  }

  lemma {:induction false} PlaceNext(ds: seq<Declared>, fields: seq<Field>, n: nat)
    requires Placed(ds, fields, n) && n < |ds| && ds[n].width > 0 && Start(ds, n) >= 0
    ensures Placed(ds, fields + [Field(Start(ds, n), ds[n].width, ds[n].bits)], n + 1)
    ensures Start(ds, n + 1) == Start(ds, n) + ds[n].width
  {
    hide Start;
    assert Start(ds, n + 1) == Start(ds, n) + ds[n].width by { StartNext(ds, n); }
  }

  lemma StartNext(ds: seq<Declared>, n: nat)
    requires n < |ds|
    ensures Start(ds, n + 1) == Start(ds, n) + ds[n].width
  {
  }

  /** Offsets are handed out in order of declaration. */
  method LayOut(ds: seq<Declared>) returns (r: Layout)
    ensures r == NoFields <==> ds == []
    ensures r == WidthNotPositive <==> !AllPositive(ds)
    ensures r.Fields? ==> Placed(ds, r.fields, |ds|) && r.total == Start(ds, |ds|) && r.total > 0
  {
    hide Placed, Start;
    if ds == [] { return NoFields; }
    var fields: seq<Field> := [];
    var offset, total: nat := 0, 0;
    var i := 0;
    NoneLaid(ds);
    while i < |ds|
      invariant 0 <= i <= |ds| && Placed(ds, fields, i) && offset == total == Start(ds, i)
      invariant i > 0 ==> total > 0
      invariant forall j | 0 <= j < i :: ds[j].width > 0
    {
      if ds[i].width <= 0 { return WidthNotPositive; }
      PlaceNext(ds, fields, i);
      fields := fields + [Field(offset, ds[i].width, ds[i].bits)];
      offset, total := offset + ds[i].width, total + ds[i].width;
      i := i + 1;
    }
    return Fields(fields, total);
  }

  lemma NoneLaid(ds: seq<Declared>)
    ensures Placed(ds, [], 0) && Start(ds, 0) == 0
  {
  }

  const WORDS: set<nat> := {8, 16, 32, 64}

  /** The backing word for a total width: the smallest one that holds it. */
  function Backing(total: nat): (b: nat)
    ensures b in WORDS && (total <= 64 ==> total <= b) && forall c | c in WORDS && total <= c :: b <= c
  {
    if total <= 8 then 8 else if total <= 16 then 16 else if total <= 32 then 32 else 64
  }

  lemma {:induction false} StartsGrow(ds: seq<Declared>, i: nat, j: nat)
    requires AllPositive(ds) && i <= j <= |ds|
    ensures 0 <= Start(ds, i) <= Start(ds, j) && (i < j ==> Start(ds, i) + ds[i].width <= Start(ds, j))
    decreases j
  {
    if i < j { StartsGrow(ds, i, j - 1); } else if i > 0 { StartsGrow(ds, i - 1, i - 1); }
  }

  /** Fields follow one another without overlap, inside w bits. */
  ghost predicate WellLaid(fields: seq<Field>, w: nat) {
    && (forall i | 0 <= i < |fields| :: fields[i].width > 0 && fields[i].offset + fields[i].width <= w)
    && (forall i, j | 0 <= i < j < |fields| :: fields[i].offset + fields[i].width <= fields[j].offset)
  }

  /** The fields lie in the backing word exactly when the declared widths add up to 64 at most. */
  lemma {:induction false} LaidOut(ds: seq<Declared>, fields: seq<Field>)
    requires AllPositive(ds) && Placed(ds, fields, |ds|)
    ensures Start(ds, |ds|) >= 0
    ensures WellLaid(fields, Start(ds, |ds|))
    ensures forall i | 0 <= i < |ds| - 1 :: fields[i].offset + fields[i].width == fields[i + 1].offset
    ensures WellLaid(fields, Backing(Start(ds, |ds|))) <==> Start(ds, |ds|) <= 64
  {
    if ds == [] { assert Start(ds, 0) == 0; } else { StartNext(ds, |ds| - 1); }
    hide Start;
    StartsGrow(ds, 0, |ds|);
    forall i: nat | i < |ds| ensures fields[i].offset + fields[i].width <= Start(ds, |ds|) { StartsGrow(ds, i, |ds|); }
    forall i: nat, j: nat | i < j < |fields| ensures fields[i].offset + fields[i].width <= fields[j].offset { StartsGrow(ds, i, j); }
    forall i: nat | i + 1 < |ds| ensures fields[i].offset + fields[i].width == fields[i + 1].offset { StartNext(ds, i); }
  }

  // ---- numbers ----

  /** A signed cast keeps the signed number modulo the new width's power. */
  lemma CastIsMod(x: nat, from: nat, to: nat)
    requires x < Pow2(from)
    ensures Cast(x, from, to) == Number(x, from, true) % Pow2(to)
  {
    hide Pow2, Bit;
    if from > 0 { TopBit(x, from); } else { NoBit(x); }
    if to <= from {
      Narrowed(x, from, to);
    } else {
      Pow2Grows(from, to);
      if 2 * x >= Pow2(from) { Residue(x - Pow2(from), -1, x + Pow2(to) - Pow2(from), Pow2(to)); } else { SmallResidue(x, Pow2(to)); }
    }
  }

  lemma NoBit(x: nat)
    requires x < Pow2(0)
    ensures x == 0 && Pow2(0) == 1
  {
  }

  // ---- reading and writing ----

  function Mask(f: Field): nat { Ones(f.width) }

  function Extract(b: nat, f: Field): nat { BitAnd(LShr(b, f.offset), Mask(f)) }

  /** The word read, in the field's own type. */
  function Read(b: nat, f: Field, w: nat): (r: nat)
    requires b < Pow2(w)
    ensures r < Pow2(f.bits)
  {
    ExtractBelow(b, f, w);
    Cast(Extract(b, f), w, f.bits)
  }

  /** The backing word after storing v, an operand held at its own width, whatever the field's type: it is cast to the
      backing word and shifted, but not masked. */
  function Written(b: nat, f: Field, v: nat, held: nat, w: nat): (r: nat)
    requires b < Pow2(w) && v < Pow2(held)
    ensures r < Pow2(w)
  {
    var cleared := BitAnd(b, Not(Shl(Mask(f), f.offset, w), w));
    var shifted := Shl(Cast(v, held, w), f.offset, w);
    AndBelow(b, Not(Shl(Mask(f), f.offset, w), w), w);
    OrBelow(cleared, shifted, w);
    BitOr(cleared, shifted)
  }

  lemma ExtractBelow(b: nat, f: Field, w: nat)
    requires b < Pow2(w)
    ensures Extract(b, f) < Pow2(w)
    ensures forall i: nat :: Bit(Extract(b, f), i) <==> i < f.width && Bit(b, i + f.offset)
  {
    forall i: nat ensures Bit(Extract(b, f), i) <==> i < f.width && Bit(b, i + f.offset) {
      BitOfAnd(LShr(b, f.offset), Mask(f), i);
      BitOfShr(b, f.offset, i);
      BitOfOnes(f.width, i);
    }
    forall i: nat | i >= w ensures !Bit(Extract(b, f), i) { BitAbove(b, w, i + f.offset); }
    BitsBelow(Extract(b, f), w);
  }

  lemma WrittenBit(b: nat, f: Field, v: nat, held: nat, w: nat, i: nat)
    requires b < Pow2(w) && v < Pow2(held) && f.offset + f.width <= w
    ensures Bit(Written(b, f, v, held, w), i) <==>
      (Bit(b, i) && !(f.offset <= i < f.offset + f.width)) || (f.offset <= i < w && Bit(Cast(v, held, w), i - f.offset))
  {
    var m := Shl(Mask(f), f.offset, w);
    var cleared := BitAnd(b, Not(m, w));
    var shifted := Shl(Cast(v, held, w), f.offset, w);
    BitOfOr(cleared, shifted, i);
    BitOfAnd(b, Not(m, w), i);
    BitOfNot(m, w, i);
    BitOfShl(Mask(f), f.offset, w, i);
    if i >= f.offset { BitOfOnes(f.width, i - f.offset); }
    BitOfShl(Cast(v, held, w), f.offset, w, i);
    if i >= w { BitAbove(b, w, i); }
  }

  // ---- what the field itself reads ----

  /** A field reads the low bits of the operand's signed number. */
  lemma ReadWritten(b: nat, f: Field, v: nat, held: nat, w: nat)
    requires b < Pow2(w) && v < Pow2(held) && f.offset + f.width <= w
    ensures Extract(Written(b, f, v, held, w), f) == Number(v, held, true) % Pow2(f.width) < Pow2(w)
    ensures Read(Written(b, f, v, held, w), f, w) == Cast(Number(v, held, true) % Pow2(f.width), w, f.bits)
  {
    hide Written, Cast, Extract, Bit, Pow2;
    var r, x := Written(b, f, v, held, w), Cast(v, held, w);
    ExtractBelow(r, f, w);
    forall i: nat ensures Bit(Extract(r, f), i) <==> Bit(x % Pow2(f.width), i) {
      BitOfMod(x, f.width, i);
      if i < f.width { WrittenBit(b, f, v, held, w, i + f.offset); }
    }
    SameBits(Extract(r, f), x % Pow2(f.width));
    CastIsMod(v, held, w);
    ModMod(Number(v, held, true), f.width, w);
  }

  /** The numbers a field can stand for. A field that is the whole word and narrower than its type is read with the sign
      of its top bit. */
  predicate InRange(f: Field, x: int, w: nat, signed: bool) {
    if f.bits <= f.width then
      if signed then 0 - Pow2(f.bits) <= 2 * x < Pow2(f.bits) else 0 <= x < Pow2(f.bits)
    else if f.width == w then
      if signed then 0 - Pow2(w) <= 2 * x < Pow2(w)
      else 0 <= 2 * x < Pow2(w) || 2 * Pow2(f.bits) - Pow2(w) <= 2 * x < 2 * Pow2(f.bits)
    else 0 <= x < Pow2(f.width)
  }

  /** How many low bits of a number decide what a field reads. */
  function Deciding(f: Field): nat { if f.bits <= f.width then f.bits else f.width }

  /** What a field reads, as a number, when the operand's signed number is s. */
  lemma FieldNumber(f: Field, s: int, w: nat, signed: bool, x: int)
    requires 0 < f.width <= w && s % Pow2(f.width) < Pow2(w)
    ensures Number(Cast(s % Pow2(f.width), w, f.bits), f.bits, signed) == x
      <==> InRange(f, x, w, signed) && x % Pow2(Deciding(f)) == s % Pow2(Deciding(f))
  {
    hide Cast, Pow2;
    var e := s % Pow2(f.width);
    CastIsMod(e, w, f.bits);
    if f.bits <= f.width {
      NarrowType(f, s, w, signed, x);
    } else if f.width == w {
      WholeWord(f, s, w, signed, x);
    } else {
      InnerField(f, s, w, signed, x);
    }
  }

  lemma NarrowType(f: Field, s: int, w: nat, signed: bool, x: int)
    requires 0 < f.width <= w && f.bits <= f.width && s % Pow2(f.width) < Pow2(w)
    ensures Number(Number(s % Pow2(f.width), w, true) % Pow2(f.bits), f.bits, signed) == x
      <==> InRange(f, x, w, signed) && x % Pow2(f.bits) == s % Pow2(f.bits)
  {
    hide Pow2;
    var e := s % Pow2(f.width);
    SignDropped(e, w, f.bits);
    ModMod(s, f.bits, f.width);
    if signed {
      SignedResidue(x, s, Pow2(f.bits));
    } else if 0 <= x < Pow2(f.bits) {
      SmallResidue(x, Pow2(f.bits));
    }
  }

  /** The sign does not matter modulo a power that is no larger. */
  lemma SignDropped(e: nat, w: nat, k: nat)
    requires k <= w
    ensures Number(e, w, true) % Pow2(k) == e % Pow2(k)
  {
    Narrowed(e, w, k);
  }

  lemma WholeWord(f: Field, s: int, w: nat, signed: bool, x: int)
    requires 0 < f.width == w < f.bits
    ensures Number(Number(s % Pow2(w), w, true) % Pow2(f.bits), f.bits, signed) == x
      <==> InRange(f, x, w, signed) && x % Pow2(w) == s % Pow2(w)
  {
    hide Pow2;
    var p, m := Pow2(f.bits), Pow2(w);
    Pow2Grows(w, f.bits);
    var t := Number(s % m, w, true);
    SignedResidue(t, s, m);
    if t < 0 { Residue(t, -1, t + p, p); } else { SmallResidue(t, p); }
    SignedResidue(x, s, m);
    SignedResidue(x - p, s, m);
    Narrowed(x, f.bits, w);
  }

  lemma InnerField(f: Field, s: int, w: nat, signed: bool, x: int)
    requires 0 < f.width < w && f.width < f.bits
    ensures Number(Number(s % Pow2(f.width), w, true) % Pow2(f.bits), f.bits, signed) == x
      <==> InRange(f, x, w, signed) && x % Pow2(f.width) == s % Pow2(f.width)
  {
    hide Pow2;
    var e := s % Pow2(f.width);
    Pow2Grows(f.width, w);
    Pow2Grows(f.width, f.bits);
    SmallResidue(e, Pow2(f.bits));
    if 0 <= x < Pow2(f.width) { SmallResidue(x, Pow2(f.width)); }
  }

  /** Storing an operand that stands for x, held at some width, lets the field read x. */
  predicate Readable(f: Field, x: int, held: nat, w: nat, signed: bool) {
    InRange(f, x, w, signed) && (2 * x < Pow2(held) || Deciding(f) <= held)
  }

  /** A stored number is read back exactly when it is in the field's range, and, for an unsigned operand with its top bit
      set, is held at enough bits: the casts are signed. */
  lemma ReadBack(b: nat, f: Field, v: nat, held: nat, w: nat, operandSigned: bool, fieldSigned: bool)
    requires b < Pow2(w) && v < Pow2(held) && 0 < f.width && f.offset + f.width <= w
    ensures Number(Read(Written(b, f, v, held, w), f, w), f.bits, fieldSigned) == Number(v, held, operandSigned)
      <==> Readable(f, Number(v, held, operandSigned), held, w, fieldSigned)
  {
    hide Written, Read, Cast, Pow2, InRange;
    var s, x := Number(v, held, true), Number(v, held, operandSigned);
    ReadWritten(b, f, v, held, w);
    FieldNumber(f, s, w, fieldSigned, x);
    if x != s { AddedPower(s, Deciding(f), held); }
  }

  // ---- what the other fields read ----

  /** The bits of the operand that are stored: those that stay inside the word, after the signed cast. */
  function Stored(f: Field, v: nat, held: nat, w: nat): nat
    requires v < Pow2(held) && f.offset <= w
  {
    Cast(v, held, w) % Pow2(w - f.offset)
  }

  lemma StoredBit(f: Field, v: nat, held: nat, w: nat, i: nat)
    requires v < Pow2(held) && f.offset <= w
    ensures Bit(Stored(f, v, held, w), i) <==> i < w - f.offset && Bit(Cast(v, held, w), i)
  {
    BitOfMod(Cast(v, held, w), w - f.offset, i);
  }

  /** Whatever the word holds, the store changes no bit outside the field. */
  ghost predicate StaysInside(f: Field, v: nat, held: nat, w: nat)
    requires v < Pow2(held)
  {
    forall b: nat, i: nat | b < Pow2(w) && !(f.offset <= i < f.offset + f.width) :: Bit(Written(b, f, v, held, w), i) == Bit(b, i)
  }

  /** A store leaves every bit outside its field alone, whatever was there, exactly when what is stored fits the field. */
  lemma StoreStaysInside(f: Field, v: nat, held: nat, w: nat)
    requires v < Pow2(held) && f.offset + f.width <= w
    ensures Stored(f, v, held, w) < Pow2(f.width) <==> StaysInside(f, v, held, w)
  {
    hide StaysInside;
    if Stored(f, v, held, w) < Pow2(f.width) { FittingStays(f, v, held, w); } else { SpillingLeaves(f, v, held, w); }
  }

  lemma FittingStays(f: Field, v: nat, held: nat, w: nat)
    requires v < Pow2(held) && f.offset + f.width <= w && Stored(f, v, held, w) < Pow2(f.width)
    ensures StaysInside(f, v, held, w)
  {
    hide Written, Cast, Bit;
    forall b: nat, i: nat | b < Pow2(w) && !(f.offset <= i < f.offset + f.width) ensures Bit(Written(b, f, v, held, w), i) == Bit(b, i) {
      WrittenBit(b, f, v, held, w, i);
      if f.offset <= i < w {
        StoredBit(f, v, held, w, i - f.offset);
        BitAbove(Stored(f, v, held, w), f.width, i - f.offset);
      }
    }
  }

  lemma SpillingLeaves(f: Field, v: nat, held: nat, w: nat)
    requires v < Pow2(held) && f.offset + f.width <= w && Stored(f, v, held, w) >= Pow2(f.width)
    ensures !StaysInside(f, v, held, w)
  {
    hide Written, Cast, Bit, Stored;
    BelowBits(Stored(f, v, held, w), f.width);
    var i: nat :| i >= f.width && Bit(Stored(f, v, held, w), i);
    StoredBit(f, v, held, w, i);
    WrittenBit(0, f, v, held, w, f.offset + i);
    BitOfZero(f.offset + i);
    assert Bit(Written(0, f, v, held, w), f.offset + i) != Bit(0, f.offset + i);
  }

  /** The operand's sign bit is copied into the bits above the field: the field is as wide as the operand or wider, and
      the word goes on behind it. */
  predicate Smears(f: Field, v: nat, held: nat, w: nat) { 0 < held <= f.width < w - f.offset && Bit(v, held - 1) }

  /** An operand that fits stays inside, unless its sign is smeared over the bits above the field. */
  lemma FitsInside(f: Field, v: nat, held: nat, w: nat)
    requires v < Pow2(held) && f.offset + f.width <= w && v < Pow2(f.width)
    ensures Stored(f, v, held, w) < Pow2(f.width) <==> !Smears(f, v, held, w)
  {
    hide Cast;
    var s := Stored(f, v, held, w);
    BelowBits(s, f.width);
    forall i: nat ensures Bit(s, i) <==> i < w - f.offset && (if i < held then Bit(v, i) else held > 0 && Bit(v, held - 1)) {
      BitOfMod(Cast(v, held, w), w - f.offset, i);
      BitOfCast(v, held, w, i);
    }
    if held > f.width { BitAbove(v, f.width, held - 1); }
    forall i: nat | i >= f.width && i < held ensures !Bit(v, i) { BitAbove(v, f.width, i); }
    if Smears(f, v, held, w) { assert Bit(s, f.width); }
  }

  /** What a store to f puts into the bits of a field g above it. */
  function Spill(f: Field, g: Field, v: nat, held: nat, w: nat): nat
    requires v < Pow2(held) && f.offset <= g.offset && f.offset <= w
  {
    LShr(Stored(f, v, held, w), g.offset - f.offset) % Pow2(g.width)
  }

  /** A store or-s what it spills into every field above. */
  lemma AboveAfter(b: nat, f: Field, g: Field, v: nat, held: nat, w: nat)
    requires b < Pow2(w) && v < Pow2(held) && f.offset + f.width <= w && g.offset + g.width <= w && f.offset + f.width <= g.offset
    ensures Extract(Written(b, f, v, held, w), g) == BitOr(Extract(b, g), Spill(f, g, v, held, w))
  {
    hide Written, Cast, Extract, Bit, Pow2, Stored;
    var r, spill := Written(b, f, v, held, w), Spill(f, g, v, held, w);
    ExtractBelow(r, g, w);
    ExtractBelow(b, g, w);
    forall i: nat ensures Bit(Extract(r, g), i) <==> Bit(BitOr(Extract(b, g), spill), i) {
      BitOfOr(Extract(b, g), spill, i);
      BitOfMod(LShr(Stored(f, v, held, w), g.offset - f.offset), g.width, i);
      BitOfShr(Stored(f, v, held, w), g.offset - f.offset, i);
      StoredBit(f, v, held, w, i + (g.offset - f.offset));
      WrittenBit(b, f, v, held, w, i + g.offset);
    }
    SameBits(Extract(r, g), BitOr(Extract(b, g), spill));
  }

  /** No store changes what a field below reads. */
  lemma BelowUnchanged(b: nat, f: Field, g: Field, v: nat, held: nat, w: nat)
    requires b < Pow2(w) && v < Pow2(held) && f.offset + f.width <= w && g.offset + g.width <= f.offset
    ensures Read(Written(b, f, v, held, w), g, w) == Read(b, g, w)
  {
    hide Written, Cast, Extract, Bit;
    var r := Written(b, f, v, held, w);
    ExtractBelow(r, g, w);
    ExtractBelow(b, g, w);
    forall i: nat ensures Bit(Extract(r, g), i) <==> Bit(Extract(b, g), i) {
      if i < g.width { WrittenBit(b, f, v, held, w, i + g.offset); }
    }
    SameBits(Extract(r, g), Extract(b, g));
  }

  /** A store that stays inside its field does not change what any other field reads. */
  lemma OthersUnchanged(b: nat, f: Field, g: Field, v: nat, held: nat, w: nat)
    requires b < Pow2(w) && v < Pow2(held) && f.offset + f.width <= w && g.offset + g.width <= w
    requires f.offset + f.width <= g.offset || g.offset + g.width <= f.offset
    requires Stored(f, v, held, w) < Pow2(f.width)
    ensures Read(Written(b, f, v, held, w), g, w) == Read(b, g, w)
  {
    hide Written, Cast, Extract, Bit;
    var r := Written(b, f, v, held, w);
    FittingStays(f, v, held, w);
    ExtractBelow(r, g, w);
    ExtractBelow(b, g, w);
    forall i: nat ensures Bit(Extract(r, g), i) <==> Bit(Extract(b, g), i) {
      if i < g.width { assert Bit(r, i + g.offset) == Bit(b, i + g.offset); }
    }
    SameBits(Extract(r, g), Extract(b, g));
  }

  /** A smeared sign fills every field above. */
  lemma SmearFills(b: nat, f: Field, g: Field, v: nat, held: nat, w: nat)
    requires b < Pow2(w) && v < Pow2(held) && Smears(f, v, held, w)
    requires f.offset + f.width <= g.offset && g.offset + g.width <= w
    ensures Extract(Written(b, f, v, held, w), g) == Ones(g.width)
  {
    hide Written, Cast, Extract, Bit, Ones;
    var r := Written(b, f, v, held, w);
    ExtractBelow(r, g, w);
    forall i: nat ensures Bit(Extract(r, g), i) <==> Bit(Ones(g.width), i) {
      BitOfOnes(g.width, i);
      if i < g.width {
        WrittenBit(b, f, v, held, w, i + g.offset);
        BitOfCast(v, held, w, i + g.offset - f.offset);
      }
    }
    SameBits(Extract(r, g), Ones(g.width));
  }

  // ---- inputs ----

  /** 200 in an 8-bit field, with another one behind it. The literal, held at 64 bits, stays inside. A variable of 8 bits
      fills the field behind, also when the field's own type is wider. */
  lemma SmearedSign(bits: nat)
    ensures var f, g := Field(0, 8, bits), Field(8, 8, 8);
      && 200 < Pow2(8) <= Pow2(64)
      && Extract(Written(0, f, 200, 64, 16), g) == 0
      && Extract(Written(0, f, 200, 8, 16), g) == 255
  {
    hide Written, Cast, Extract, Pow2, Stored;
    var f, g := Field(0, 8, bits), Field(8, 8, 8);
    Values();
    Pow2Of64();
    FitsInside(f, 200, 64, 16);
    SmearFills(0, f, g, 200, 8, 16);
    FittingStays(f, 200, 64, 16);
    var r := Written(0, f, 200, 64, 16);
    ExtractBelow(r, g, 16);
    forall i: nat ensures !Bit(Extract(r, g), i) {
      if i < 8 {
        assert Bit(r, i + 8) == Bit(0, i + 8);
        BitOfZero(i + 8);
      }
    }
    SameBitsZero(Extract(r, g));
  }

  /** A literal 200 in an 8-bit field of a 64-bit type that is the whole word reads back as -56. */
  lemma NegativeReadBack()
    ensures 200 < Pow2(64) && Number(Read(Written(0, Field(0, 8, 64), 200, 64, 8), Field(0, 8, 64), 8), 64, true) == -56
  {
    hide Written, Read, Cast, Pow2;
    var f := Field(0, 8, 64);
    Values();
    Pow2Of64();
    ReadWritten(0, f, 200, 64, 8);
    FieldNumber(f, 200, 8, true, -56);
  }

  /** An unsigned 8-bit variable holding 200, stored in a 16-bit field of a 64-bit type, reads back as 65480. */
  lemma WideReadBack()
    ensures 200 < Pow2(8) && Number(Read(Written(0, Field(0, 16, 64), 200, 8, 32), Field(0, 16, 64), 32), 64, true) == 65480
  {
    hide Written, Read, Cast, Pow2;
    var f := Field(0, 16, 64);
    Values();
    Pow2Of64();
    Pow2Grows(16, 32);
    Residue(-56, -1, 65480, 65536);
    SmallResidue(65480, 65536);
    ReadWritten(0, f, 200, 8, 32);
    FieldNumber(f, -56, 32, true, 65480);
  }

  lemma Values()
    ensures Pow2(8) == 256 && Pow2(16) == 65536 && Bit(200, 7) && Ones(8) == 255
  {
    assert Pow2(4) == 16;
    assert Pow2(8) == 16 * Pow2(4);
    assert Pow2(12) == 16 * Pow2(8);
    assert Pow2(16) == 16 * Pow2(12);
    assert Bit(200, 7) == Bit(12, 3) == Bit(1, 0) by { assert 200 / 2 == 100 && 100 / 2 == 50 && 50 / 2 == 25 && 25 / 2 == 12 && 12 / 2 == 6 && 6 / 2 == 3 && 3 / 2 == 1; }
  }

  lemma SameBitsZero(x: nat)
    requires forall i: nat :: !Bit(x, i)
    ensures x == 0
  {
    forall i: nat ensures Bit(x, i) <==> Bit(0, i) { BitOfZero(i); }
    SameBits(x, 0);
  }

  // ---- a variable of bit-field type ----

  class Variable {
    const w: nat
    const fields: seq<Field>
    var backing: nat

    ghost predicate Valid()
      reads this
    {
      backing < Pow2(w) && WellLaid(fields, w)
    }

    /** What every field reads. */
    ghost function Values(): (vs: seq<nat>)
      requires Valid()
      reads this
      ensures |vs| == |fields| && forall i | 0 <= i < |fields| :: vs[i] == Read(backing, fields[i], w)
    {
      seq(|fields|, i requires 0 <= i < |fields| && backing < Pow2(w) reads this => Read(backing, fields[i], w))
    }

    constructor (w: nat, fields: seq<Field>)
      requires WellLaid(fields, w)
      ensures Valid() && this.w == w && this.fields == fields && backing == 0
    {
      this.w, this.fields, backing := w, fields, 0;
    }

    method Get(i: nat) returns (v: nat)
      requires Valid() && i < |fields|
      ensures v == Values()[i] && v < Pow2(fields[i].bits)
    {
      var f := fields[i];
      var shifted := if f.offset > 0 then LShr(backing, f.offset) else backing;
      ExtractBelow(backing, f, w);
      v := Cast(BitAnd(shifted, Mask(f)), w, f.bits);
    }

    /** Storing an operand held at any width. As numbers, under any reading of the two types' signs, the field holds the
        operand exactly when it is readable; all other fields keep their values if what is stored fits the field, and in
        any case those below do, and those above read what is spilled into them as well. */
    method Assign(i: nat, v: nat, held: nat)
      requires Valid() && i < |fields| && v < Pow2(held)
      modifies this
      ensures Valid() && backing == Written(old(backing), fields[i], v, held, w)
      ensures forall o: bool, s: bool :: var x := Number(v, held, o);
        Number(Values()[i], fields[i].bits, s) == x <==> Readable(fields[i], x, held, w, s)
      ensures Stored(fields[i], v, held, w) < Pow2(fields[i].width) ==> Values() == old(Values())[i := Values()[i]]
      ensures forall j | 0 <= j < i :: Values()[j] == old(Values())[j]
      ensures forall j | i < j < |fields| :: (
        fields[i].offset <= fields[j].offset
        && Extract(backing, fields[j]) == BitOr(Extract(old(backing), fields[j]), Spill(fields[i], fields[j], v, held, w)))
    {
      hide Written, Read, Cast, Stored, Shl, Extract, Readable, Number, Spill;
      var f := fields[i];
      var was := backing;
      backing := Written(was, f, v, held, w);
      forall o: bool, s: bool
        ensures var x := Number(v, held, o); Number(Read(backing, f, w), f.bits, s) == x <==> Readable(f, x, held, w, s)
      {
        ReadBack(was, f, v, held, w, o, s);
      }
      forall j | 0 <= j < |fields| && j != i
        ensures j < i ==> Read(backing, fields[j], w) == Read(was, fields[j], w)
        ensures j > i ==> Extract(backing, fields[j]) == BitOr(Extract(was, fields[j]), Spill(f, fields[j], v, held, w))
        ensures Stored(f, v, held, w) < Pow2(f.width) ==> Read(backing, fields[j], w) == Read(was, fields[j], w)
      {
        if j < i { BelowUnchanged(was, f, fields[j], v, held, w); } else { AboveAfter(was, f, fields[j], v, held, w); }
        if Stored(f, v, held, w) < Pow2(f.width) { OthersUnchanged(was, f, fields[j], v, held, w); }
      }
    }

    /** Read, operate in the field's type, and store the result in the same way, held at the field type's width. The
        outcome is undefined when the operation is. */
    method Compound(i: nat, op: Cfg.BinOp, rhs: nat) returns (defined: bool)
      requires Valid() && i < |fields| && rhs < Pow2(fields[i].bits)
      modifies this
      ensures Valid() && old(Values())[i] < Pow2(fields[i].bits)
      ensures defined == Apply(op, old(Values())[i], rhs, fields[i].bits).Some?
      ensures defined ==>
        var f := fields[i]; var v := Apply(op, old(Values())[i], rhs, f.bits).word;
        && backing == Written(old(backing), f, v, f.bits, w)
        && (forall s: bool :: Number(Values()[i], f.bits, s) == Number(v, f.bits, s) <==> Readable(f, Number(v, f.bits, s), f.bits, w, s))
        && (Stored(f, v, f.bits, w) < Pow2(f.width) ==> Values() == old(Values())[i := Values()[i]])
    {
      hide Written, Read, Cast, Stored, Apply, Readable, Number, Spill, Extract;
      var x := Get(i);
      var r := Apply(op, x, rhs, fields[i].bits);
      defined := r.Some?;
      if defined { Assign(i, r.word, fields[i].bits); }
    }
  }
}
