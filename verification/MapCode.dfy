module MapCode {
  // The code emitted for maps: allocation, reading a key, finding or claiming the slot of a key, and storing to it.
  // All of it works on raw bytes, and refines a finite map of bounded capacity.

  import opened MapLayout

  // ---- what a map is, seen from outside ----

  /** Storing to a key: a new key enters only while there is room. */
  function Put(m: map<nat, nat>, cap: nat, key: nat, v: nat): map<nat, nat> {
    if key in m || |m| < cap then m[key := v] else m
  }

  /** Reading a key: a missing key reads as zero. */
  function Lookup(m: map<nat, nat>, key: nat): nat {
    if key in m then m[key] else 0
  }

  datatype Op = Read(key: nat) | Assign(key: nat, value: nat)

  function After(m: map<nat, nat>, cap: nat, ops: seq<Op>): map<nat, nat>
    decreases |ops|
  {
    if ops == [] then m else
      match ops[0]
      case Read(_) => After(m, cap, ops[1..])
      case Assign(key, v) => After(Put(m, cap, key, v), cap, ops[1..])
  }

  function Reads(m: map<nat, nat>, cap: nat, ops: seq<Op>): seq<nat>
    decreases |ops|
  {
    if ops == [] then [] else
      match ops[0]
      case Read(key) => [Lookup(m, key)] + Reads(m, cap, ops[1..])
      case Assign(key, v) => Reads(Put(m, cap, key, v), cap, ops[1..])
  }

  function LastAssigned(ops: seq<Op>, key: nat): nat {
    if ops == [] then 0
    else if ops[|ops| - 1].Assign? && ops[|ops| - 1].key == key then ops[|ops| - 1].value
    else LastAssigned(ops[..|ops| - 1], key)
  }

  function Assigned(ops: seq<Op>): set<nat> {
    set op | op in ops && op.Assign? :: op.key
  }

  lemma {:induction false} AfterSnoc(m: map<nat, nat>, cap: nat, ops: seq<Op>, op: Op)
    ensures After(m, cap, ops + [op]) == if op.Assign? then Put(After(m, cap, ops), cap, op.key, op.value) else After(m, cap, ops)
    decreases |ops|
  {
    if ops == [] {
      assert (ops + [op])[1..] == [];
    } else {
      assert (ops + [op])[1..] == ops[1..] + [op];
      AfterSnoc(if ops[0].Assign? then Put(m, cap, ops[0].key, ops[0].value) else m, cap, ops[1..], op);
    }
  }

  /** As long as no more keys are assigned than fit, every key reads the value assigned to it last. */
  lemma {:induction false} ReadsLastAssigned(cap: nat, ops: seq<Op>, key: nat)
    requires |Assigned(ops)| <= cap
    ensures After(map[], cap, ops).Keys == Assigned(ops)
    ensures Lookup(After(map[], cap, ops), key) == LastAssigned(ops, key)
    decreases |ops|
  {
    if ops != [] {
      var front, op := ops[..|ops| - 1], ops[|ops| - 1];
      assert ops == front + [op];
      AssignedSnoc(front, op);
      Grown(Assigned(front), Assigned(ops));
      ReadsLastAssigned(cap, front, key);
      AfterSnoc(map[], cap, front, op);
      var before := After(map[], cap, front);
      assert |before| == |before.Keys|;
      if op.Assign? && op.key !in before {
        assert Assigned(ops) == before.Keys + {op.key};
        assert |before| < cap;
      }
    }
  }

  lemma AssignedSnoc(ops: seq<Op>, op: Op)
    ensures Assigned(ops + [op]) == Assigned(ops) + if op.Assign? then {op.key} else {}
  {
    forall k ensures k in Assigned(ops + [op]) <==> k in Assigned(ops) + if op.Assign? then {op.key} else {} {
      if k in Assigned(ops) {
        var o :| o in ops && o.Assign? && o.key == k;
        assert o in ops + [op];
      }
      if op.Assign? && op.key == k { assert op in ops + [op]; }
    }
  }

  lemma Grown(a: set<nat>, b: set<nat>)
    requires a <= b
    ensures |a| <= |b|
  {
    assert b == a + (b - a);
  }

  /** What comes before the first assignment to a key. */
  function BeforeKey(ops: seq<Op>, key: nat): seq<Op> {
    if ops == [] || (ops[0].Assign? && ops[0].key == key) then [] else [ops[0]] + BeforeKey(ops[1..], key)
  }

  lemma {:induction false} BeforeSnoc(ops: seq<Op>, op: Op, key: nat)
    ensures BeforeKey(ops + [op], key) == if key in Assigned(ops) || (op.Assign? && op.key == key) then BeforeKey(ops, key) else ops + [op]
    ensures key !in Assigned(ops) ==> BeforeKey(ops, key) == ops
    decreases |ops|
  {
    if ops == [] {
      assert (ops + [op])[1..] == [];
    } else {
      assert (ops + [op])[1..] == ops[1..] + [op];
      assert Assigned(ops) == Assigned(ops[1..]) + if ops[0].Assign? then {ops[0].key} else {} by { AssignedFirst(ops); }
      if !(ops[0].Assign? && ops[0].key == key) {
        BeforeSnoc(ops[1..], op, key);
        assert [ops[0]] + ops[1..] == ops;
      }
    }
  }

  lemma AssignedFirst(ops: seq<Op>)
    requires ops != []
    ensures Assigned(ops) == Assigned(ops[1..]) + if ops[0].Assign? then {ops[0].key} else {}
  {
    assert ops == [ops[0]] + ops[1..];
  }

  /** The key is assigned to, and fewer keys than fit were assigned to before it. */
  predicate Enters(ops: seq<Op>, cap: nat, key: nat) { key in Assigned(ops) && |Assigned(BeforeKey(ops, key))| < cap }

  /** The keys of the map: all that were assigned to while they fit, and as many as fit afterwards. */
  lemma {:induction false} KeysAfter(cap: nat, ops: seq<Op>)
    ensures var keys, all := After(map[], cap, ops).Keys, Assigned(ops);
      keys <= all && |keys| == (if |all| < cap then |all| else cap) && (|all| <= cap ==> keys == all)
    decreases |ops|
  {
    hide Assigned, Put;
    if ops == [] {
      NothingAssigned();
    } else {
      var front, op := ops[..|ops| - 1], ops[|ops| - 1];
      assert ops == front + [op];
      AssignedSnoc(front, op);
      KeysAfter(cap, front);
      AfterSnoc(map[], cap, front, op);
      if op.Assign? {
        PutKeys(After(map[], cap, front), Assigned(front), cap, op.key, op.value);
      } else {
        assert Assigned(ops) == Assigned(front);
      }
    }
  }

  lemma NothingAssigned()
    ensures Assigned([]) == {}
  {
  }

  lemma PutKeys(m: map<nat, nat>, all: set<nat>, cap: nat, key: nat, v: nat)
    requires m.Keys <= all && |m.Keys| == (if |all| < cap then |all| else cap) && (|all| <= cap ==> m.Keys == all)
    ensures var keys, more := Put(m, cap, key, v).Keys, all + {key};
      keys <= more && |keys| == (if |more| < cap then |more| else cap) && (|more| <= cap ==> keys == more)
  {
    assert |m| == |m.Keys|;
    if key in all { assert all + {key} == all; }
    if key in m { assert Put(m, cap, key, v).Keys == m.Keys; }
    if |m| < cap { assert Put(m, cap, key, v).Keys == m.Keys + {key}; }
  }

  /** After any run, however many keys it assigns to, a key that got in while there was room reads the value assigned to it
      last, and every other key reads zero. */
  lemma {:induction false} ReadsAfterAnyRun(cap: nat, ops: seq<Op>, key: nat)
    ensures key in After(map[], cap, ops) <==> Enters(ops, cap, key)
    ensures Lookup(After(map[], cap, ops), key) == if Enters(ops, cap, key) then LastAssigned(ops, key) else 0
    decreases |ops|
  {
    hide Assigned, BeforeKey;
    if ops == [] {
      NothingAssigned();
    } else {
      var front, op := ops[..|ops| - 1], ops[|ops| - 1];
      assert ops == front + [op];
      AssignedSnoc(front, op);
      ReadsAfterAnyRun(cap, front, key);
      AfterSnoc(map[], cap, front, op);
      BeforeSnoc(front, op, key);
      KeysAfter(cap, front);
      var m := After(map[], cap, front);
      assert |m| == |m.Keys|;
      if op.Assign? && op.key == key && key !in Assigned(front) {
        assert Enters(ops, cap, key) <==> |Assigned(front)| < cap;
      }
    }
  }

  /** A read answers for the map at that point of the run. */
  lemma {:induction false} ReadsSnoc(m: map<nat, nat>, cap: nat, ops: seq<Op>, op: Op)
    ensures Reads(m, cap, ops + [op]) == Reads(m, cap, ops) + if op.Read? then [Lookup(After(m, cap, ops), op.key)] else []
    decreases |ops|
  {
    hide Lookup, Put;
    if ops == [] {
      assert (ops + [op])[1..] == [];
    } else {
      assert (ops + [op])[1..] == ops[1..] + [op];
      ReadsSnoc(if ops[0].Assign? then Put(m, cap, ops[0].key, ops[0].value) else m, cap, ops[1..], op);
    }
  }

  /** A map at capacity refuses every new key, and keeps answering for the keys it has. */
  lemma {:induction false} FullMapKeepsItsKeys(m: map<nat, nat>, cap: nat, ops: seq<Op>)
    requires |m| >= cap
    ensures After(m, cap, ops).Keys == m.Keys
    decreases |ops|
  {
    if ops != [] {
      match ops[0]
      case Read(_) => FullMapKeepsItsKeys(m, cap, ops[1..]);
      case Assign(key, v) =>
        var next := Put(m, cap, key, v);
        assert next.Keys == m.Keys;
        assert |next| == |next.Keys| == |m.Keys| == |m|;
        FullMapKeepsItsKeys(next, cap, ops[1..]);
    }
  }

  /** The number of entries is the size of the map. */
  lemma {:induction false} ContentsSize(m: seq<Byte>, sh: Shape, n: nat)
    requires |m| == Off(sh, sh.cap) && n <= sh.cap
    requires forall i: nat, j: nat | i < j < n :: KeyAt(m, sh, i) != KeyAt(m, sh, j)
    ensures |Contents(m, sh, n)| == n
  {
    hide Flag, KeyAt, ValAt, Blank;
    if n > 0 {
      ContentsSize(m, sh, n - 1);
      KeysInContents(m, sh, n - 1, KeyAt(m, sh, n - 1));
      var c := Contents(m, sh, n - 1);
      assert Contents(m, sh, n).Keys == c.Keys + {KeyAt(m, sh, n - 1)};
      assert |Contents(m, sh, n)| == |Contents(m, sh, n).Keys|;
    }
  }

  // ---- the bytes behind the header, a claim and a store ----

  lemma MadeBytes(m: seq<Byte>, sh: Shape, m1: seq<Byte>, m2: seq<Byte>, m3: seq<Byte>)
    requires |m| >= HEADER && forall x | 0 <= x < |m| :: m[x] == 0
    requires m1 == Write(m, 8, Encode(sh.cap, 8))
    requires m2 == Write(m1, 16, Encode(sh.ks, 8))
    requires m3 == Write(m2, 24, Encode(sh.vs, 8))
    ensures |m3| == |m|
    ensures m3[8..16] == Encode(sh.cap, 8) && m3[16..24] == Encode(sh.ks, 8) && m3[24..32] == Encode(sh.vs, 8)
    ensures forall x | 0 <= x < |m3| && !(8 <= x < 32) :: m3[x] == 0
  {
    hide Write, Encode;
    SameSlice(m1, m3, 8, 16);
    SameSlice(m2, m3, 16, 24);
  }

  /** The memory after the three stores that claim entry i for a key and count it. */
  lemma ClaimBytes(m: seq<Byte>, sh: Shape, i: nat, key: nat, m1: seq<Byte>, m2: seq<Byte>, m3: seq<Byte>)
    requires Holds(m, sh, i) && i < sh.cap && key < Power(sh.ks)
    requires Off(sh, i) + Stride(sh) <= |m|
    requires m1 == Write(m, Off(sh, i), [1])
    requires m2 == Write(m1, Off(sh, i) + 1, Encode(key, sh.ks))
    requires m3 == Write(m2, 0, Encode(i + 1, 8))
    ensures |m3| == |m| && OnlyEntry(m, m3, sh, i) && WordAt(m3, 0) == i + 1
    ensures Flag(m3, sh, i) == 1 && KeyAt(m3, sh, i) == key && ValAt(m3, sh, i) == 0
  {
    hide Holds, Write, Decode, Encode, Power;
    Entries(sh, i, i + 1);
    DecodeEncode(key, sh.ks);
    CountFits(m, sh, i);
    DecodeEncode(i + 1, 8);
    ClaimedEntry(m, sh, i, m1, m2, m3);
    var from := Off(sh, i) + 1;
    SameSlice(m2, m3, from, from + sh.ks);
  }

  lemma Claimed(m: seq<Byte>, sh: Shape, i: nat, key: nat, m1: seq<Byte>, m2: seq<Byte>, m3: seq<Byte>)
    requires Holds(m, sh, i) && i < sh.cap && key < Power(sh.ks) && key !in Contents(m, sh, i)
    requires Off(sh, i) + Stride(sh) <= |m|
    requires m1 == Write(m, Off(sh, i), [1])
    requires m2 == Write(m1, Off(sh, i) + 1, Encode(key, sh.ks))
    requires m3 == Write(m2, 0, Encode(i + 1, 8))
    ensures HasLayout(m3, sh) && Holds(m3, sh, i + 1) && WordAt(m3, 0) == i + 1
    ensures Contents(m3, sh, i + 1) == Contents(m, sh, i)[key := 0] && KeyAt(m3, sh, i) == key
  {
    hide Holds, Write, Decode, Encode, Power, KeyAt, ValAt, Flag, Blank, OnlyEntry, Contents;
    ClaimBytes(m, sh, i, key, m1, m2, m3);
    ClaimAdds(m, m3, sh, i, key);
    Facts(m3, sh, i + 1);
  }

  lemma ClaimedEntry(m: seq<Byte>, sh: Shape, i: nat, m1: seq<Byte>, m2: seq<Byte>, m3: seq<Byte>)
    requires Holds(m, sh, i) && i < sh.cap && |m1| == |m2| == |m3| == |m|
    requires HEADER <= Off(sh, i) && Off(sh, i) + Stride(sh) <= |m|
    requires m1[Off(sh, i)] == 1
    requires forall x | 0 <= x < |m| && x != Off(sh, i) :: m1[x] == m[x]
    requires forall x | 0 <= x < |m| && !(Off(sh, i) + 1 <= x < Off(sh, i) + 1 + sh.ks) :: m2[x] == m1[x]
    requires forall x | 0 <= x < |m| && !(0 <= x < 8) :: m3[x] == m2[x]
    ensures Flag(m3, sh, i) == 1 && ValAt(m3, sh, i) == 0
  {
    hide Decode, Power, KeyAt;
    var from := Off(sh, i) + 1;
    assert Blank(m, sh, i);
    DecodeZero(m3[from + sh.ks..Off(sh, i) + Stride(sh)]);
  }

  lemma CountFits(m: seq<Byte>, sh: Shape, i: nat)
    requires Holds(m, sh, i) && i < sh.cap
    ensures i + 1 < Power(8)
  {
  }

  /** The memory after storing a value into entry i. */
  lemma PutBytes(m: seq<Byte>, sh: Shape, n: nat, i: nat, v: nat, m': seq<Byte>)
    requires Holds(m, sh, n) && i < n && v < Power(sh.vs)
    requires Off(sh, i) + Stride(sh) <= |m|
    requires m' == Write(m, Off(sh, i) + 1 + sh.ks, Encode(v, sh.vs))
    ensures OnlyEntry(m, m', sh, i) && WordAt(m', 0) == WordAt(m, 0)
    ensures Flag(m', sh, i) == 1 && KeyAt(m', sh, i) == KeyAt(m, sh, i) && ValAt(m', sh, i) == v
  {
    Entries(sh, i, i + 1);
    DecodeEncode(v, sh.vs);
    SameSlice(m, m', 0, 8);
    SameSlice(m, m', Off(sh, i) + 1, Off(sh, i) + 1 + sh.ks);
    assert Flag(m, sh, i) == 1;
  }

  // ---- the emitted code ----

  datatype Slot = Null | At(address: nat)

  class Data {
    const mem: array<Byte>
    const keySize: nat
    const valueSize: nat
    ghost const shape: Shape

    ghost predicate Valid()
      reads mem
    {
      && shape.ks == keySize && shape.vs == valueSize
      && HasLayout(mem[..], shape) && Holds(mem[..], shape, Count())
    }

    ghost function Count(): nat
      reads mem
    {
      if mem.Length < 8 then 0 else WordAt(mem[..], 0)
    }

    ghost function Contents(): map<nat, nat>
      requires Valid()
      reads mem
    {
      MapLayout.Contents(mem[..], shape, Count())
    }

    /** make(map, len): zeroed memory, then the three header words. The size is computed modulo 2^64; the map is usable
        exactly when that does not wrap around. */
    constructor (len: nat, keySize: nat, valueSize: nat)
      requires len < Power(8) && keySize < Power(8) && valueSize < Power(8)
      requires HEADER <= AllocationSize(Shape(len, keySize, valueSize))
      ensures fresh(mem) && shape == Shape(len, keySize, valueSize) && mem.Length == AllocationSize(shape)
      ensures Valid() <==> HEADER + len * (1 + keySize + valueSize) < Power(8)
      ensures Valid() ==> Contents() == map[]
    {
      hide *;
      this.keySize, this.valueSize, this.shape := keySize, valueSize, Shape(len, keySize, valueSize);
      var size := AllocationSize(Shape(len, keySize, valueSize));
      mem := new Byte[size](i => 0);
      new;
      Fits(len, keySize, valueSize);
      WriteHeader(len);
    }

    method WriteHeader(len: nat)
      requires shape == Shape(len, keySize, valueSize) && HEADER <= mem.Length
      requires len < Power(8) && keySize < Power(8) && valueSize < Power(8)
      requires forall x | 0 <= x < mem.Length :: mem[x] == 0
      modifies mem
      ensures Valid() <==> mem.Length == Off(shape, len)
      ensures Valid() ==> Contents() == map[]
    {
      hide Holds, Decode, Encode, Power, Write, MapLayout.Contents;
      ghost var m := mem[..];
      Store(8, len, 8);
      ghost var m1 := mem[..];
      Store(16, keySize, 8);
      ghost var m2 := mem[..];
      Store(24, valueSize, 8);
      if mem.Length == Off(shape, len) {
        hide HasLayout;
        MadeBytes(m, shape, m1, m2, mem[..]);
        MadeHolds(mem[..], shape);
        Facts(mem[..], shape, 0);
      }
    }

    /** A load of n bytes. */
    method Load(o: nat, n: nat) returns (v: nat)
      requires o + n <= mem.Length
      ensures v == Decode(mem[..][o..o + n])
    {
      v := Decode(mem[..][o..o + n]);
    }

    /** A store of n bytes. */
    method Store(o: nat, v: nat, n: nat)
      requires o + n <= mem.Length
      modifies mem
      ensures mem[..] == Write(old(mem[..]), o, Encode(v, n))
      ensures forall x | 0 <= x < mem.Length && !(o <= x < o + n) :: mem[x] == old(mem[x])
      ensures mem[o..o + n] == Encode(v, n)
    {
      ghost var was := mem[..];
      var bytes := Encode(v, n);
      forall x | o <= x < o + n { mem[x] := bytes[x - o]; }
      assert mem[..] == Write(was, o, bytes) by {
        var w := Write(was, o, bytes);
        assert forall x | o <= x < o + n :: w[x] == w[o..o + n][x - o];
      }
    }

    /** The read of m[key]: every occupied entry is compared until one matches; none reads as zero. */
    method Get(key: nat) returns (v: nat)
      requires Valid() && key < Power(keySize)
      ensures v == Lookup(Contents(), key)
    {
      hide Holds, Blank, Flag, Decode, Encode, Power, MapLayout.Contents;
      ghost var m := mem[..];
      Facts(m, shape, Count());
      var cap := Load(8, 8);
      var ks := Load(16, 8);
      var vs := Load(24, 8);
      var stride := 1 + (ks + vs);
      var i: nat := 0;
      while i < cap
        invariant i <= cap == shape.cap
        invariant forall j: nat | j < i && j < Count() :: KeyAt(m, shape, j) != key
      {
        EntryState(m, shape, Count(), i);
        var entry := HEADER + i * stride;
        var occupied := Load(entry, 1);
        OneByte(m, entry);
        if occupied != 0 {
          var k := Load(entry + 1, keySize);
          if k == key {
            v := Load(entry + (ks + 1), valueSize);
            ValueInContents(m, shape, Count(), i);
            return;
          }
        }
        i := i + 1;
      }
      KeysInContents(m, shape, Count(), key);
      v := 0;
    }

    /** The target of m[key] = …: the slot of the key, else the first blank entry after claiming it, else none. */
    method Find(key: nat) returns (slot: Slot)
      requires Valid() && key < Power(keySize)
      modifies mem
      ensures Valid() && slot.Null? == (key !in old(Contents()) && old(Count()) == shape.cap)
      ensures slot.Null? ==> mem[..] == old(mem[..])
      ensures slot.At? ==> Contents() == if key in old(Contents()) then old(Contents()) else old(Contents())[key := 0]
      ensures slot.At? ==> exists i: nat :: i < Count() && slot.address == Off(shape, i) + 1 + keySize && KeyAt(mem[..], shape, i) == key
    {
      hide Holds, Blank, Flag, Decode, Encode, Power, MapLayout.Contents;
      ghost var m, n := mem[..], Count();
      Facts(m, shape, n);
      var cap := Load(8, 8);
      var ks := Load(16, 8);
      var vs := Load(24, 8);
      var stride := 1 + (ks + vs);
      slot := Null;
      var firstEmpty: nat := cap;
      var i: nat := 0;
      while i < cap
        invariant i <= cap == shape.cap && mem[..] == m && slot.Null?
        invariant firstEmpty == if n < i then n else cap
        invariant forall j: nat | j < i && j < n :: KeyAt(m, shape, j) != key
      {
        EntryState(m, shape, Count(), i);
        var entry := HEADER + i * stride;
        var occupied := Load(entry, 1);
        OneByte(m, entry);
        if occupied != 0 {
          var k := Load(entry + 1, keySize);
          if k == key {
            slot := At(entry + (ks + 1));
            ValueInContents(m, shape, n, i);
            assert KeyAt(mem[..], shape, i) == key;
            return;
          }
        } else {
          firstEmpty := if firstEmpty == cap then i else firstEmpty;
        }
        i := i + 1;
      }
      KeysInContents(m, shape, n, key);
      if slot.Null? && firstEmpty < cap {
        slot := Claim(key, firstEmpty, stride, ks);
      }
    }

    /** The claim block: mark the entry, store its key, count it. */
    method Claim(key: nat, i: nat, stride: nat, ks: nat) returns (slot: Slot)
      requires Valid() && key < Power(keySize) && key !in Contents()
      requires i == Count() < shape.cap && stride == Stride(shape) && ks == keySize
      modifies mem
      ensures Valid() && Count() == i + 1 && slot == At(Off(shape, i) + 1 + keySize)
      ensures Contents() == old(Contents())[key := 0] && KeyAt(mem[..], shape, i) == key
    {
      hide Holds, KeyAt, ValAt, Flag, Blank, Decode, Encode, Power, Write, MapLayout.Contents, OnlyEntry;
      ghost var m := mem[..];
      Facts(m, shape, i);
      InBounds(shape, i);
      var entry := HEADER + i * stride;
      Store(entry, 1, 1);
      OneEncoded();
      assert entry == Off(shape, i);
      ghost var m1 := mem[..];
      Store(entry + 1, key, keySize);
      ghost var m2 := mem[..];
      SameSlice(m, m2, 0, 8);
      var count := Load(0, 8);
      Store(0, count + 1, 8);
      Claimed(m, shape, i, key, m1, m2, mem[..]);
      slot := At(entry + (ks + 1));
    }

    /** The assignment m[key] = v: into the slot, or into a temporary when there is none. */
    method Set(key: nat, v: nat)
      requires Valid() && key < Power(keySize) && v < Power(valueSize)
      modifies mem
      ensures Valid() && Contents() == Put(old(Contents()), shape.cap, key, v)
    {
      hide Blank, Flag, Decode, Encode, Power, MapLayout.Contents;
      ghost var c := Contents();
      Size();
      var slot := Find(key);
      if slot.At? {
        ghost var i: nat :| i < Count() && slot.address == Off(shape, i) + 1 + keySize && KeyAt(mem[..], shape, i) == key;
        PutAt(slot.address, v, i);
      }
    }

    method PutAt(address: nat, v: nat, ghost i: nat)
      requires Valid() && v < Power(valueSize) && i < Count() && address == Off(shape, i) + 1 + keySize
      modifies mem
      ensures Valid() && Contents() == old(Contents())[old(KeyAt(mem[..], shape, i)) := v]
    {
      hide Holds, KeyAt, ValAt, Flag, Blank, Decode, Encode, Power, MapLayout.Contents, OnlyEntry;
      ghost var m, n := mem[..], Count();
      Facts(m, shape, n);
      InBounds(shape, i);
      Store(address, v, valueSize);
      PutBytes(m, shape, n, i, v, mem[..]);
      PutUpdates(m, mem[..], shape, n, i, v);
      Facts(mem[..], shape, n);
    }

    /** Any run of reads and assignments gives the answers the finite map gives, and leaves what the map becomes. */
    method Replay(ops: seq<Op>) returns (answers: seq<nat>)
      requires Valid()
      requires forall op | op in ops :: op.key < Power(keySize) && (op.Assign? ==> op.value < Power(valueSize))
      modifies mem
      ensures Valid() && Contents() == After(old(Contents()), shape.cap, ops)
      ensures answers == Reads(old(Contents()), shape.cap, ops)
    {
      answers := [];
      ghost var c := Contents();
      var i := 0;
      assert ops[0..] == ops;
      while i < |ops|
        invariant 0 <= i <= |ops| && Valid()
        invariant After(Contents(), shape.cap, ops[i..]) == After(c, shape.cap, ops)
        invariant answers + Reads(Contents(), shape.cap, ops[i..]) == Reads(c, shape.cap, ops)
      {
        assert ops[i..][1..] == ops[i + 1..] && ops[i] in ops;
        match ops[i] {
          case Read(key) =>
            var v := Get(key);
            assert answers + ([v] + Reads(Contents(), shape.cap, ops[i + 1..])) == (answers + [v]) + Reads(Contents(), shape.cap, ops[i + 1..]);
            answers := answers + [v];
          case Assign(key, v) =>
            Set(key, v);
        }
        i := i + 1;
      }
    }

    lemma Size()
      requires Valid()
      ensures |Contents()| == Count() <= shape.cap
    {
      ContentsSize(mem[..], shape, Count());
    }
  }

  /** What the loops need of a map in memory. */
  lemma Facts(m: seq<Byte>, sh: Shape, n: nat)
    requires Holds(m, sh, n)
    ensures HasLayout(m, sh) && n <= sh.cap && WordAt(m, 0) == n
    ensures forall i: nat | i < n :: Flag(m, sh, i) == 1
    ensures forall i: nat | n <= i < sh.cap :: Blank(m, sh, i)
    ensures forall i: nat, j: nat | i < j < n :: KeyAt(m, sh, i) != KeyAt(m, sh, j)
  {
  }

  /** The flag of an entry, as a byte of the memory. */
  lemma EntryState(m: seq<Byte>, sh: Shape, n: nat, i: nat)
    requires Holds(m, sh, n) && i < sh.cap
    ensures HEADER <= Off(sh, i) && Off(sh, i) + Stride(sh) <= |m|
    ensures m[Off(sh, i)] == if i < n then 1 else 0
  {
    InBounds(sh, i);
    if i < n { assert Flag(m, sh, i) == 1; } else { assert Blank(m, sh, i); }
  }

  lemma OneEncoded()
    ensures Encode(1, 1) == [1]
  {
    assert Encode(0, 0) == [];
  }

  lemma OneByte(m: seq<Byte>, o: nat)
    requires o < |m|
    ensures Decode(m[o..o + 1]) == m[o]
  {
    assert m[o..o + 1] == [m[o]];
    assert m[o..o + 1][1..] == [];
  }

  lemma Fits(len: nat, ks: nat, vs: nat)
    ensures AllocationSize(Shape(len, ks, vs)) == Off(Shape(len, ks, vs), len) <==> HEADER + len * (1 + ks + vs) < Power(8)
  {
    AllocationHolds(Shape(len, ks, vs));
  }
}
