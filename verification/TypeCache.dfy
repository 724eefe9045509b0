module TypeCache {
  // The cache of instantiated type applications: equal applications share one descriptor, also across nested ones.

  const CACHE_MAX := 256

  /** Descriptors are numbered; 0 is no descriptor. */
  type Descriptor = nat

  datatype Arg = TypeArg(t: Descriptor) | IntArg(n: int)

  datatype Key = Key(origin: nat, args: seq<Arg>)

  /** A cache entry keeps types and integers in two arrays; a position of the other kind holds zero. */
  datatype Entry = Entry(origin: nat, types: seq<Descriptor>, ints: seq<int>, result: Descriptor)

  /** A type application, with the applications met while the instantiated body is resolved. */
  datatype Req = Req(key: Key, parts: Reqs)

  datatype Reqs = Nil | Cons(head: Req, tail: Reqs)

  /** Environments of the instantiations under way, entries so far, and the next fresh descriptor. */
  datatype State = State(envs: seq<seq<Arg>>, cache: seq<Entry>, next: Descriptor)

  function TypeOf(a: Arg): Descriptor { if a.TypeArg? then a.t else 0 }

  function IntOf(a: Arg): int { if a.IntArg? then a.n else 0 }

  function Stored(k: Key, d: Descriptor): (e: Entry)
    ensures |e.types| == |e.ints| == |k.args|
  {
    Entry(k.origin, seq(|k.args|, i requires 0 <= i < |k.args| => TypeOf(k.args[i])),
          seq(|k.args|, i requires 0 <= i < |k.args| => IntOf(k.args[i])), d)
  }

  /** The comparison made: only the array that the argument's kind asks for is looked at. */
  predicate Matches(e: Entry, k: Key) {
    && e.origin == k.origin && |e.types| == |k.args| == |e.ints|
    && forall i | 0 <= i < |k.args| :: if k.args[i].TypeArg? then e.types[i] == k.args[i].t else e.ints[i] == k.args[i].n
  }

  /** Position of the first match, or the length. */
  function Find(es: seq<Entry>, k: Key): (i: nat)
    ensures i <= |es| && (i < |es| ==> Matches(es[i], k)) && forall j | 0 <= j < i :: !Matches(es[j], k)
  {
    if es == [] then 0 else if Matches(es[0], k) then 0 else 1 + Find(es[1..], k)
  }

  function Run(r: Req, st: State): (q: (State, Descriptor))
    decreases r
  {
    var i := Find(st.cache, r.key);
    if i < |st.cache| then (st, st.cache[i].result)
    else
      var st1 := RunAll(r.parts, st.(envs := st.envs + [r.key.args]));
      var envs := if st1.envs == [] then [] else st1.envs[..|st1.envs| - 1];
      (State(envs, if |st1.cache| < CACHE_MAX then st1.cache + [Stored(r.key, st1.next)] else st1.cache, st1.next + 1), st1.next)
  }

  function RunAll(rs: Reqs, st: State): State
    decreases rs
  {
    match rs
    case Nil => st
    case Cons(r, rest) => RunAll(rest, Run(r, st).0)
  }

  // ---- the environment stack and the entries ----

  /** The stack is as before, entries are only added at the end, descriptors only grow. */
  ghost predicate Later(st: State, st': State) {
    st'.envs == st.envs && st.cache <= st'.cache && st.next <= st'.next
  }

  lemma {:induction false} RunKeeps(r: Req, st: State)
    ensures Later(st, Run(r, st).0)
    decreases r
  {
    if Find(st.cache, r.key) == |st.cache| {
      var st0 := st.(envs := st.envs + [r.key.args]);
      RunAllKeeps(r.parts, st0);
      assert st0.envs[..|st.envs|] == st.envs;
    }
  }

  lemma {:induction false} RunAllKeeps(rs: Reqs, st: State)
    ensures Later(st, RunAll(rs, st))
    decreases rs
  {
    match rs
    case Nil =>
    case Cons(r, rest) =>
      RunKeeps(r, st);
      RunAllKeeps(rest, Run(r, st).0);
  }

  // ---- keys ----

  function KeysOf(r: Req): set<Key> { {r.key} + KeysOfAll(r.parts) }

  function KeysOfAll(rs: Reqs): set<Key> {
    match rs
    case Nil => {}
    case Cons(r, rest) => KeysOf(r) + KeysOfAll(rest)
  }

  /** An origin fixes the kinds of its arguments. */
  ghost predicate Kinded(k: Key, kinds: map<nat, seq<bool>>) {
    k.origin in kinds && |kinds[k.origin]| == |k.args| && forall i | 0 <= i < |k.args| :: k.args[i].TypeArg? == kinds[k.origin][i]
  }

  /** Resolving a body is deterministic: an instantiation of a key always meets the same applications. */
  predicate Follows(r: Req, body: map<Key, Reqs>) {
    r.key in body && body[r.key] == r.parts && FollowsAll(r.parts, body)
  }

  predicate FollowsAll(rs: Reqs, body: map<Key, Reqs>) {
    match rs
    case Nil => true
    case Cons(r, rest) => Follows(r, body) && FollowsAll(rest, body)
  }

  function Size(r: Req): nat { 1 + SizeAll(r.parts) }

  function SizeAll(rs: Reqs): nat {
    match rs
    case Nil => 0
    case Cons(r, rest) => Size(r) + SizeAll(rest)
  }

  /** A key met inside has a body no larger than where it was met. */
  lemma {:induction false} InnerBody(rs: Reqs, body: map<Key, Reqs>, k: Key)
    requires FollowsAll(rs, body) && k in KeysOfAll(rs)
    ensures k in body && SizeAll(body[k]) < SizeAll(rs)
    decreases rs
  {
    match rs
    case Cons(r, rest) =>
      if k in KeysOfAll(rest) {
        InnerBody(rest, body, k);
      } else if k != r.key {
        InnerBody(r.parts, body, k);
      }
  }

  /** So an instantiation never meets its own key again. */
  lemma NoSelfNesting(r: Req, body: map<Key, Reqs>)
    requires Follows(r, body)
    ensures r.key !in KeysOfAll(r.parts)
  {
    if r.key in KeysOfAll(r.parts) { InnerBody(r.parts, body, r.key); }
  }

  // ---- transparency ----

  ghost predicate Distinct(ks: seq<Key>) {
    forall i, j | 0 <= i < j < |ks| :: ks[i] != ks[j]
  }

  /** The entries are those of the keys ks, each with a descriptor of its own. */
  ghost predicate Caches(st: State, ks: seq<Key>, kinds: map<nat, seq<bool>>) {
    && |st.cache| == |ks| && Distinct(ks)
    && (forall i | 0 <= i < |ks| :: Kinded(ks[i], kinds) && st.cache[i] == Stored(ks[i], st.cache[i].result) && st.cache[i].result < st.next)
    && (forall i, j | 0 <= i < j < |ks| :: st.cache[i].result != st.cache[j].result)
  }

  lemma MatchesSameKey(k: Key, l: Key, d: Descriptor, kinds: map<nat, seq<bool>>)
    requires Kinded(k, kinds) && Kinded(l, kinds)
    ensures Matches(Stored(k, d), l) <==> k == l
  {
    if Matches(Stored(k, d), l) {
      forall i | 0 <= i < |l.args| ensures k.args[i] == l.args[i] {
        assert k.args[i].TypeArg? == l.args[i].TypeArg?;
      }
      assert k.args == l.args;
    }
  }

  /** A hit means full equality of origin and arguments, and a key in the cache is hit. */
  lemma FindsKey(st: State, ks: seq<Key>, kinds: map<nat, seq<bool>>, k: Key)
    requires Caches(st, ks, kinds) && Kinded(k, kinds)
    ensures var i := Find(st.cache, k);
      if i < |ks| then ks[i] == k else k !in ks
  {
    hide Kinded, Stored, Matches;
    var i := Find(st.cache, k);
    if i < |ks| { MatchesSameKey(ks[i], k, st.cache[i].result, kinds); }
    forall j | 0 <= j < i ensures ks[j] != k {
      MatchesSameKey(ks[j], k, st.cache[j].result, kinds);
    }
  }

  lemma Add(st: State, ks: seq<Key>, kinds: map<nat, seq<bool>>, k: Key, envs: seq<seq<Arg>>)
    requires Caches(st, ks, kinds) && Kinded(k, kinds) && k !in ks
    ensures Caches(State(envs, st.cache + [Stored(k, st.next)], st.next + 1), ks + [k], kinds)
  {
    hide Kinded;
  }

  ghost predicate AllKinded(ks: set<Key>, kinds: map<nat, seq<bool>>) {
    forall k | k in ks :: Kinded(k, kinds)
  }

  /** Fewer than all keys are cached while one of them is not. */
  lemma {:induction false} RoomLeft(ks: seq<Key>, all: set<Key>)
    requires Distinct(ks) && forall k | k in ks :: k in all
    ensures |ks| <= |all|
    decreases |ks|
  {
    if ks != [] {
      var k, rest := ks[|ks| - 1], ks[..|ks| - 1];
      assert k in ks && forall l | l in rest :: l in ks && l != k;
      RoomLeft(rest, all - {k});
    }
  }

  /** The run so far went through the keys ks, which are among all. */
  ghost predicate Sound(st: State, ks: seq<Key>, all: set<Key>, kinds: map<nat, seq<bool>>) {
    Caches(st, ks, kinds) && (forall k | k in ks :: k in all) && |all| <= CACHE_MAX && AllKinded(all, kinds)
  }

  /** While no more than 256 keys occur, an application returns the descriptor of its key, and keys that were
      instantiated before keep theirs. */
  lemma {:induction false} RunTransparent(r: Req, st: State, ks: seq<Key>, all: set<Key>, kinds: map<nat, seq<bool>>, body: map<Key, Reqs>)
    returns (ks': seq<Key>, j: nat)
    requires Sound(st, ks, all, kinds) && Follows(r, body) && KeysOf(r) <= all
    ensures ks <= ks' && Sound(Run(r, st).0, ks', all, kinds) && forall k | k in ks' :: k in ks || k in KeysOf(r)
    ensures j < |ks'| && ks'[j] == r.key && Run(r, st).0.cache[j].result == Run(r, st).1
    decreases r
  {
    hide Kinded, Distinct, Stored;
    FindsKey(st, ks, kinds, r.key);
    if Find(st.cache, r.key) < |st.cache| {
      ks', j := ks, Find(st.cache, r.key);
    } else {
      var st0 := st.(envs := st.envs + [r.key.args]);
      assert Caches(st0, ks, kinds);
      var ks1 := RunAllTransparent(r.parts, st0, ks, all, kinds, body);
      NoSelfNesting(r, body);
      StoreTransparent(r, st, ks1, all, kinds);
      ks', j := ks1 + [r.key], |ks1|;
    }
  }

  /** The last step of a miss. */
  lemma StoreTransparent(r: Req, st: State, ks: seq<Key>, all: set<Key>, kinds: map<nat, seq<bool>>)
    requires Find(st.cache, r.key) == |st.cache| && r.key in all && r.key !in ks
    requires Sound(RunAll(r.parts, st.(envs := st.envs + [r.key.args])), ks, all, kinds)
    ensures var (st', d) := Run(r, st);
      Sound(st', ks + [r.key], all, kinds) && |st'.cache| == |ks| + 1 && st'.cache[|ks|].result == d
  {
    var st1 := RunAll(r.parts, st.(envs := st.envs + [r.key.args]));
    assert Distinct(ks + [r.key]);
    RoomLeft(ks + [r.key], all);
    Add(st1, ks, kinds, r.key, Run(r, st).0.envs);
  }

  lemma {:induction false} RunAllTransparent(rs: Reqs, st: State, ks: seq<Key>, all: set<Key>, kinds: map<nat, seq<bool>>, body: map<Key, Reqs>)
    returns (ks': seq<Key>)
    requires Sound(st, ks, all, kinds) && FollowsAll(rs, body) && KeysOfAll(rs) <= all
    ensures ks <= ks' && Sound(RunAll(rs, st), ks', all, kinds) && forall k | k in ks' :: k in ks || k in KeysOfAll(rs)
    decreases rs
  {
    hide Sound;
    match rs
    case Nil => ks' := ks;
    case Cons(r, rest) =>
      var ks1, _ := RunTransparent(r, st, ks, all, kinds, body);
      ks' := RunAllTransparent(rest, Run(r, st).0, ks1, all, kinds, body);
  }

  /** Two applications anywhere in a run return the same descriptor exactly when their keys are equal. */
  lemma SameDescriptor(before: Reqs, r: Req, between: Reqs, q: Req, all: set<Key>, kinds: map<nat, seq<bool>>, body: map<Key, Reqs>)
    requires FollowsAll(before, body) && Follows(r, body) && FollowsAll(between, body) && Follows(q, body)
    requires KeysOfAll(before) + KeysOf(r) + KeysOfAll(between) + KeysOf(q) <= all && |all| <= CACHE_MAX && AllKinded(all, kinds)
    ensures var st := RunAll(before, State([], [], 1));
      var (st1, d) := Run(r, st);
      var (_, e) := Run(q, RunAll(between, st1));
      d == e <==> r.key == q.key
  {
    hide Run, RunAll, KeysOf, KeysOfAll, AllKinded, Follows, FollowsAll, Kinded, Stored;
    var start := State([], [], 1);
    assert Sound(start, [], all, kinds);
    var ks0 := RunAllTransparent(before, start, [], all, kinds, body);
    var st := RunAll(before, start);
    var ks1, i := RunTransparent(r, st, ks0, all, kinds, body);
    var (st1, d) := Run(r, st);
    var ks2 := RunAllTransparent(between, st1, ks1, all, kinds, body);
    var st2 := RunAll(between, st1);
    var ks3, j := RunTransparent(q, st2, ks2, all, kinds, body);
    var (st3, e) := Run(q, st2);
    RunAllKeeps(between, st1);
    RunKeeps(q, st2);
    assert st1.cache <= st3.cache;
    assert st3.cache[i].result == d && ks3[i] == r.key && st3.cache[j].result == e && ks3[j] == q.key;
    OneToOne(st3, ks3, kinds, i, j);
  }

  lemma OneToOne(st: State, ks: seq<Key>, kinds: map<nat, seq<bool>>, i: nat, j: nat)
    requires Caches(st, ks, kinds) && i < |ks| && j < |ks|
    ensures st.cache[i].result == st.cache[j].result <==> ks[i] == ks[j]
  {
  }

  /** When the cache is full a new key gets a new descriptor every time. */
  lemma FullCache(r: Req, st: State)
    requires Find(st.cache, r.key) == |st.cache| && |st.cache| >= CACHE_MAX
    ensures var (st1, d) := Run(r, st); Run(r, st1).1 != d
  {
    var st0 := st.(envs := st.envs + [r.key.args]);
    FullStays(r.parts, st0);
    var st1 := Run(r, st).0;
    RunAllKeeps(r.parts, st1.(envs := st1.envs + [r.key.args]));
  }

  lemma {:induction false} FullStays(rs: Reqs, st: State)
    requires |st.cache| >= CACHE_MAX
    ensures RunAll(rs, st).cache == st.cache
    decreases rs
  {
    match rs
    case Nil =>
    case Cons(r, rest) =>
      if Find(st.cache, r.key) == |st.cache| { FullStays(r.parts, st.(envs := st.envs + [r.key.args])); }
      FullStays(rest, Run(r, st).0);
  }

  // ---- in place ----

  class Cache {
    const entries: array<Entry>
    var count: nat
    var envs: seq<seq<Arg>>
    var next: Descriptor

    ghost predicate Valid()
      reads this, entries
    {
      entries.Length == CACHE_MAX && count <= CACHE_MAX && forall i | 0 <= i < count :: |entries[i].types| == |entries[i].ints|
    }

    ghost function Contents(): State
      requires Valid()
      reads this, entries
    {
      State(envs, entries[..count], next)
    }

    constructor ()
      ensures Valid() && Contents() == State([], [], 1) && fresh(entries)
    {
      entries := new Entry[CACHE_MAX](_ => Entry(0, [], [], 0));
      count, envs, next := 0, [], 1;
    }

    /** Compare argument by argument, in the array the argument's kind asks for. */
    method IsMatch(e: Entry, k: Key) returns (hit: bool)
      requires |e.types| == |e.ints|
      ensures hit == Matches(e, k)
    {
      if e.origin != k.origin || |e.types| != |k.args| {
        return false;
      }
      var i := 0;
      while i < |k.args|
        invariant i <= |k.args|
        invariant forall j | 0 <= j < i :: if k.args[j].TypeArg? then e.types[j] == k.args[j].t else e.ints[j] == k.args[j].n
      {
        if (if k.args[i].TypeArg? then e.types[i] != k.args[i].t else e.ints[i] != k.args[i].n) {
          return false;
        }
        i := i + 1;
      }
      hit := true;
    }

    /** Search the entries in order. */
    method IndexOf(k: Key) returns (i: nat)
      requires Valid()
      ensures i == Find(Contents().cache, k)
    {
      i := 0;
      while i < count
        invariant i <= count && Find(entries[..count], k) == i + Find(entries[..count][i..], k)
      {
        var hit := IsMatch(entries[i], k);
        assert entries[..count][i..][0] == entries[i];
        if hit {
          return;
        }
        assert entries[..count][i..][1..] == entries[..count][i + 1..];
        i := i + 1;
      }
    }

    method Store(k: Key, d: Descriptor)
      requires Valid()
      modifies this`count, entries
      ensures Valid()
      ensures var s := old(Contents()); Contents() == s.(cache := if |s.cache| < CACHE_MAX then s.cache + [Stored(k, d)] else s.cache)
    {
      if count < CACHE_MAX {
        entries[count] := Stored(k, d);
        count := count + 1;
      }
    }

    /** Instantiate, or return the descriptor of an equal earlier application. */
    method Instantiate(r: Req) returns (d: Descriptor)
      requires Valid()
      modifies this, entries
      ensures Valid() && (Contents(), d) == Run(r, old(Contents()))
      decreases r
    {
      var i := IndexOf(r.key);
      if i < count {
        return entries[i].result;
      }
      envs := envs + [r.key.args];
      InstantiateAll(r.parts);
      if envs != [] {
        envs := envs[..|envs| - 1];
      }
      d, next := next, next + 1;
      Store(r.key, d);
    }

    method InstantiateAll(rs: Reqs)
      requires Valid()
      modifies this, entries
      ensures Valid() && Contents() == RunAll(rs, old(Contents()))
      decreases rs
    {
      match rs
      case Nil =>
      case Cons(r, rest) =>
        var _ := Instantiate(r);
        InstantiateAll(rest);
    }
  }
}
