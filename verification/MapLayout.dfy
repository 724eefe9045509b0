module MapLayout {
  // Memory layout of a map: a 32-byte header with count, capacity, key size and value size, then one entry after the
  // other, each an occupied flag, the key and the value.

  type Byte = b: nat | b < 256

  // ---- little-endian integers ----

  function Power(n: nat): (p: nat)
    ensures p > 0
  {
    if n == 0 then 1 else 256 * Power(n - 1)
  }

  function Decode(s: seq<Byte>): (v: nat)
    ensures v < Power(|s|)
  {
    if s == [] then 0 else s[0] + 256 * Decode(s[1..])
  }

  function Encode(v: nat, n: nat): (s: seq<Byte>)
    ensures |s| == n
  {
    if n == 0 then [] else [v % 256] + Encode(v / 256, n - 1)
  }

  lemma {:induction false} DecodeEncode(v: nat, n: nat)
    requires v < Power(n)
    ensures Decode(Encode(v, n)) == v
  {
    if n > 0 {
      DecodeEncode(v / 256, n - 1);
      assert Encode(v, n)[1..] == Encode(v / 256, n - 1);
    }
  }

  lemma {:induction false} DecodeZero(s: seq<Byte>)
    requires forall i | 0 <= i < |s| :: s[i] == 0
    ensures Decode(s) == 0
  {
    if s != [] { DecodeZero(s[1..]); }
  }

  lemma Monotone(a: nat, x: nat, y: nat)
    requires x <= y
    ensures a * x <= a * y
  {
  }

  /** Overwrite n bytes at o. */
  function Write(m: seq<Byte>, o: nat, s: seq<Byte>): (r: seq<Byte>)
    requires o + |s| <= |m|
    ensures |r| == |m| && r[o..o + |s|] == s
    ensures forall x | 0 <= x < |m| && !(o <= x < o + |s|) :: r[x] == m[x]
  {
    m[..o] + s + m[o + |s|..]
  }

  // ---- the layout ----

  datatype Shape = Shape(cap: nat, ks: nat, vs: nat)

  const HEADER := 32

  function Stride(sh: Shape): nat { 1 + sh.ks + sh.vs }

  function Off(sh: Shape, i: nat): nat { HEADER + i * Stride(sh) }

  /** Entries lie one after the other and within the allocation. */
  lemma Entries(sh: Shape, i: nat, j: nat)
    requires i < j
    ensures HEADER <= Off(sh, i) && Off(sh, i) + Stride(sh) <= Off(sh, j)
  {
    Monotone(Stride(sh), i + 1, j);
  }

  lemma InBounds(sh: Shape, i: nat)
    requires i < sh.cap
    ensures HEADER <= Off(sh, i) && Off(sh, i) + Stride(sh) <= Off(sh, sh.cap)
  {
    Entries(sh, i, sh.cap);
  }

  predicate SameBytes(m: seq<Byte>, m': seq<Byte>, from: nat, to: nat) {
    |m| == |m'| && forall x | from <= x < to && x < |m| :: m[x] == m'[x]
  }

  lemma SameSlice(m: seq<Byte>, m': seq<Byte>, from: nat, to: nat)
    requires from <= to <= |m| && SameBytes(m, m', from, to)
    ensures m[from..to] == m'[from..to]
  {
  }

  function WordAt(m: seq<Byte>, o: nat): nat
    requires o + 8 <= |m|
  {
    Decode(m[o..o + 8])
  }

  predicate HasLayout(m: seq<Byte>, sh: Shape) {
    && |m| == Off(sh, sh.cap) && sh.cap < Power(8) && sh.ks < Power(8) && sh.vs < Power(8)
    && HEADER <= |m| && WordAt(m, 8) == sh.cap && WordAt(m, 16) == sh.ks && WordAt(m, 24) == sh.vs
  }

  function Flag(m: seq<Byte>, sh: Shape, i: nat): Byte
    requires |m| == Off(sh, sh.cap) && i < sh.cap
  {
    InBounds(sh, i);
    m[Off(sh, i)]
  }

  function KeyAt(m: seq<Byte>, sh: Shape, i: nat): nat
    requires |m| == Off(sh, sh.cap) && i < sh.cap
  {
    InBounds(sh, i);
    Decode(m[Off(sh, i) + 1..Off(sh, i) + 1 + sh.ks])
  }

  function ValAt(m: seq<Byte>, sh: Shape, i: nat): nat
    requires |m| == Off(sh, sh.cap) && i < sh.cap
  {
    InBounds(sh, i);
    Decode(m[Off(sh, i) + 1 + sh.ks..Off(sh, i) + Stride(sh)])
  }

  predicate Blank(m: seq<Byte>, sh: Shape, i: nat)
    requires |m| == Off(sh, sh.cap) && i < sh.cap
  {
    InBounds(sh, i);
    forall x | Off(sh, i) <= x < Off(sh, i) + Stride(sh) :: m[x] == 0
  }

  /** The first n entries are occupied, with distinct keys; the others are blank; the header's count is n. */
  ghost predicate Holds(m: seq<Byte>, sh: Shape, n: nat) {
    && HasLayout(m, sh) && n <= sh.cap && WordAt(m, 0) == n
    && (forall i: nat | i < n :: Flag(m, sh, i) == 1)
    && (forall i: nat | n <= i < sh.cap :: Blank(m, sh, i))
    && (forall i: nat, j: nat | i < j < n :: KeyAt(m, sh, i) != KeyAt(m, sh, j))
  }

  /** The finite map that the first i entries stand for. */
  function Contents(m: seq<Byte>, sh: Shape, i: nat): map<nat, nat>
    requires |m| == Off(sh, sh.cap) && i <= sh.cap
  {
    if i == 0 then map[] else Contents(m, sh, i - 1)[KeyAt(m, sh, i - 1) := ValAt(m, sh, i - 1)]
  }

  lemma {:induction false} KeysInContents(m: seq<Byte>, sh: Shape, n: nat, key: nat)
    requires |m| == Off(sh, sh.cap) && n <= sh.cap
    ensures key in Contents(m, sh, n) <==> exists i: nat :: i < n && KeyAt(m, sh, i) == key
  {
    if n > 0 {
      KeysInContents(m, sh, n - 1, key);
      if key in Contents(m, sh, n) {
        if KeyAt(m, sh, n - 1) == key { } else {
          var i: nat :| i < n - 1 && KeyAt(m, sh, i) == key;
          assert i < n;
        }
      }
    }
  }

  lemma {:induction false} ValueInContents(m: seq<Byte>, sh: Shape, n: nat, i: nat)
    requires |m| == Off(sh, sh.cap) && i < n <= sh.cap
    requires forall i: nat, j: nat | i < j < n :: KeyAt(m, sh, i) != KeyAt(m, sh, j)
    ensures KeyAt(m, sh, i) in Contents(m, sh, n) && Contents(m, sh, n)[KeyAt(m, sh, i)] == ValAt(m, sh, i)
  {
    if i < n - 1 { ValueInContents(m, sh, n - 1, i); }
  }

  /** Entries that did not change stand for the same map. */
  lemma {:induction false} ContentsSame(m: seq<Byte>, m': seq<Byte>, sh: Shape, n: nat)
    requires |m| == |m'| == Off(sh, sh.cap) && n <= sh.cap
    requires SameBytes(m, m', HEADER, Off(sh, n))
    ensures Contents(m, sh, n) == Contents(m', sh, n)
    ensures forall i: nat | i < n :: Flag(m, sh, i) == Flag(m', sh, i) && KeyAt(m, sh, i) == KeyAt(m', sh, i) && ValAt(m, sh, i) == ValAt(m', sh, i)
  {
    if n > 0 {
      Entries(sh, n - 1, n);
      InBounds(sh, n - 1);
      ContentsSame(m, m', sh, n - 1);
      EntrySame(m, m', sh, n - 1);
    }
  }

  lemma EntrySame(m: seq<Byte>, m': seq<Byte>, sh: Shape, i: nat)
    requires |m| == |m'| == Off(sh, sh.cap) && i < sh.cap
    requires SameBytes(m, m', Off(sh, i), Off(sh, i) + Stride(sh))
    ensures Flag(m, sh, i) == Flag(m', sh, i) && KeyAt(m, sh, i) == KeyAt(m', sh, i) && ValAt(m, sh, i) == ValAt(m', sh, i)
    ensures Blank(m, sh, i) <==> Blank(m', sh, i)
  {
    InBounds(sh, i);
    SameSlice(m, m', Off(sh, i) + 1, Off(sh, i) + 1 + sh.ks);
    SameSlice(m, m', Off(sh, i) + 1 + sh.ks, Off(sh, i) + Stride(sh));
    assert forall x | Off(sh, i) <= x < Off(sh, i) + Stride(sh) :: m[x] == m'[x];
  }

  // ---- make, claiming a slot, storing a value ----

  /** The size that is allocated: both the product and the sum are taken modulo 2^64. */
  function AllocationSize(sh: Shape): nat {
    (HEADER + sh.cap * Stride(sh) % Power(8)) % Power(8)
  }

  /** The allocation holds every entry exactly when its true size fits in 64 bits. */
  lemma AllocationHolds(sh: Shape)
    ensures Off(sh, sh.cap) <= AllocationSize(sh) <==> HEADER + sh.cap * Stride(sh) < Power(8)
    ensures HEADER + sh.cap * Stride(sh) < Power(8) ==> AllocationSize(sh) == Off(sh, sh.cap)
  {
    assert AllocationSize(sh) < Power(8);
    if HEADER + sh.cap * Stride(sh) < Power(8) {
      Small(sh.cap * Stride(sh));
      Small(HEADER + sh.cap * Stride(sh));
    }
  }

  lemma Small(x: nat)
    requires x < Power(8)
    ensures x % Power(8) == x
  {
  }

  /** A map that has just been made holds nothing. */
  lemma MadeHolds(m: seq<Byte>, sh: Shape)
    requires sh.cap < Power(8) && sh.ks < Power(8) && sh.vs < Power(8)
    requires |m| == Off(sh, sh.cap) && HEADER <= |m|
    requires m[8..16] == Encode(sh.cap, 8) && m[16..24] == Encode(sh.ks, 8) && m[24..32] == Encode(sh.vs, 8)
    requires forall x | 0 <= x < |m| && !(8 <= x < 32) :: m[x] == 0
    ensures Holds(m, sh, 0) && Contents(m, sh, 0) == map[]
  {
    DecodeEncode(sh.cap, 8);
    DecodeEncode(sh.ks, 8);
    DecodeEncode(sh.vs, 8);
    DecodeZero(m[0..8]);
    forall i: nat | i < sh.cap ensures Blank(m, sh, i) { InBounds(sh, i); }
  }

  lemma HeaderSame(m: seq<Byte>, m': seq<Byte>, sh: Shape)
    requires HasLayout(m, sh) && SameBytes(m, m', 8, HEADER)
    ensures HasLayout(m', sh)
  {
    SameSlice(m, m', 8, 16);
    SameSlice(m, m', 16, 24);
    SameSlice(m, m', 24, 32);
  }

  /** m' differs from m in entry i and in the count at most. */
  predicate OnlyEntry(m: seq<Byte>, m': seq<Byte>, sh: Shape, i: nat) {
    && SameBytes(m, m', 8, Off(sh, i)) && SameBytes(m, m', Off(sh, i + 1), |m|)
  }

  lemma OthersSame(m: seq<Byte>, m': seq<Byte>, sh: Shape, i: nat, j: nat)
    requires |m| == |m'| == Off(sh, sh.cap) && i < sh.cap && j < sh.cap && i != j
    requires OnlyEntry(m, m', sh, i)
    ensures Flag(m, sh, j) == Flag(m', sh, j) && KeyAt(m, sh, j) == KeyAt(m', sh, j) && ValAt(m, sh, j) == ValAt(m', sh, j)
    ensures Blank(m, sh, j) <==> Blank(m', sh, j)
  {
    InBounds(sh, j);
    if j < i { Entries(sh, j, i); } else { Entries(sh, i, j); if i + 1 < j { Entries(sh, i + 1, j); } }
    EntrySame(m, m', sh, j);
  }

  /** Claiming the first blank entry for a new key adds that key with the value zero. */
  lemma ClaimAdds(m: seq<Byte>, m': seq<Byte>, sh: Shape, n: nat, key: nat)
    requires Holds(m, sh, n) && n < sh.cap && key !in Contents(m, sh, n)
    requires |m'| == |m| && OnlyEntry(m, m', sh, n) && WordAt(m', 0) == n + 1
    requires Flag(m', sh, n) == 1 && KeyAt(m', sh, n) == key && ValAt(m', sh, n) == 0
    ensures Holds(m', sh, n + 1)
    ensures Contents(m', sh, n + 1) == Contents(m, sh, n)[key := 0]
  {
    hide Flag, KeyAt, ValAt, Blank;
    InBounds(sh, n);
    HeaderSame(m, m', sh);
    forall j: nat | j < sh.cap && j != n
      ensures Flag(m, sh, j) == Flag(m', sh, j) && KeyAt(m, sh, j) == KeyAt(m', sh, j) && (Blank(m, sh, j) <==> Blank(m', sh, j))
    { OthersSame(m, m', sh, n, j); }
    forall j: nat | j < n ensures KeyAt(m, sh, j) != key { KeysInContents(m, sh, n, key); }
    if n > 0 { Entries(sh, 0, n); }
    ContentsSame(m, m', sh, n);
  }

  /** Storing the value of an occupied entry updates its key and nothing else. */
  lemma PutUpdates(m: seq<Byte>, m': seq<Byte>, sh: Shape, n: nat, i: nat, v: nat)
    requires Holds(m, sh, n) && i < n
    requires |m'| == |m| && OnlyEntry(m, m', sh, i) && WordAt(m', 0) == WordAt(m, 0)
    requires Flag(m', sh, i) == 1 && KeyAt(m', sh, i) == KeyAt(m, sh, i) && ValAt(m', sh, i) == v
    ensures Holds(m', sh, n)
    ensures Contents(m', sh, n) == Contents(m, sh, n)[KeyAt(m, sh, i) := v]
  {
    hide Flag, KeyAt, ValAt, Blank, Contents;
    InBounds(sh, i);
    HeaderSame(m, m', sh);
    forall j: nat | j < sh.cap && j != i
      ensures Flag(m, sh, j) == Flag(m', sh, j) && KeyAt(m, sh, j) == KeyAt(m', sh, j) && (Blank(m, sh, j) <==> Blank(m', sh, j))
    { OthersSame(m, m', sh, i, j); }
    UpdatedContents(m, m', sh, n, i, v);
  }

  lemma {:induction false} UpdatedContents(m: seq<Byte>, m': seq<Byte>, sh: Shape, n: nat, i: nat, v: nat)
    requires |m| == |m'| == Off(sh, sh.cap) && i < n <= sh.cap
    requires OnlyEntry(m, m', sh, i)
    requires forall a: nat, b: nat | a < b < n :: KeyAt(m, sh, a) != KeyAt(m, sh, b)
    requires KeyAt(m', sh, i) == KeyAt(m, sh, i) && ValAt(m', sh, i) == v
    ensures Contents(m', sh, n) == Contents(m, sh, n)[KeyAt(m, sh, i) := v]
  {
    hide Flag, KeyAt, ValAt, Blank;
    if i == n - 1 {
      InBounds(sh, i);
      if i > 0 { Entries(sh, 0, i); }
      ContentsSame(m, m', sh, i);
    } else {
      UpdatedContents(m, m', sh, n - 1, i, v);
      OthersSame(m, m', sh, i, n - 1);
    }
  }
}
