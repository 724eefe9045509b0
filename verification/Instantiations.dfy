module Instantiations {
  // When the resolution of a type application ends. The cache entry is written after the body has been resolved, so an
  // application that meets itself again in its own body is resolved for ever.

  import opened TypeCache

  /** The applications that resolving the body of an instantiation meets directly, in order. */
  type Bodies = Key -> seq<Key>

  datatype Out = Out(st: State, d: Descriptor, ended: bool)

  /** Resolve an application from its body; the fuel bounds the depth of the recursion. */
  function Resolve(k: Key, body: Bodies, st: State, fuel: nat): Out
    decreases fuel, 0
  {
    var i := Find(st.cache, k);
    if i < |st.cache| then Out(st, st.cache[i].result, true)
    else if fuel == 0 then Out(st, 0, false)
    else
      var o := ResolveAll(body(k), body, st.(envs := st.envs + [k.args]), fuel - 1);
      if !o.ended then o else Out(After(k, o.st), o.st.next, true)
  }

  function ResolveAll(ks: seq<Key>, body: Bodies, st: State, fuel: nat): Out
    decreases fuel, |ks| + 1
  {
    if ks == [] then Out(st, 0, true)
    else
      var o := Resolve(ks[0], body, st, fuel);
      if !o.ended then o else ResolveAll(ks[1..], body, o.st, fuel)
  }

  /** Pop the environment, hand out a descriptor and store the entry if there is room. */
  function After(k: Key, st: State): State {
    State(if st.envs == [] then [] else st.envs[..|st.envs| - 1],
          if |st.cache| < CACHE_MAX then st.cache + [Stored(k, st.next)] else st.cache, st.next + 1)
  }

  /** The tree of an application: below each node the applications of its body. */
  predicate Unfolds(r: Req, body: Bodies) { UnfoldsAll(r.parts, body(r.key), body) }

  predicate UnfoldsAll(rs: Reqs, ks: seq<Key>, body: Bodies) {
    match rs
    case Nil => ks == []
    case Cons(r, rest) => ks != [] && r.key == ks[0] && Unfolds(r, body) && UnfoldsAll(rest, ks[1..], body)
  }

  function Depth(r: Req): nat { 1 + DepthAll(r.parts) }

  function DepthAll(rs: Reqs): nat {
    match rs
    case Nil => 0
    case Cons(r, rest) => if Depth(r) > DepthAll(rest) then Depth(r) else DepthAll(rest)
  }

  // ---- an application with a tree ----

  /** Where the tree exists, resolving the body is the run over the tree. */
  lemma {:induction false} ResolveIsRun(r: Req, body: Bodies, st: State, fuel: nat)
    requires Unfolds(r, body) && Depth(r) <= fuel
    ensures Resolve(r.key, body, st, fuel) == Out(Run(r, st).0, Run(r, st).1, true)
    decreases r
  {
    if Find(st.cache, r.key) == |st.cache| {
      ResolveAllIsRun(r.parts, body(r.key), body, st.(envs := st.envs + [r.key.args]), fuel - 1);
    }
  }

  lemma {:induction false} ResolveAllIsRun(rs: Reqs, ks: seq<Key>, body: Bodies, st: State, fuel: nat)
    requires UnfoldsAll(rs, ks, body) && DepthAll(rs) <= fuel
    ensures ResolveAll(ks, body, st, fuel).ended && ResolveAll(ks, body, st, fuel).st == RunAll(rs, st)
    decreases rs
  {
    match rs
    case Nil =>
    case Cons(r, rest) =>
      ResolveIsRun(r, body, st, fuel);
      ResolveAllIsRun(rest, ks[1..], body, Run(r, st).0, fuel);
  }

  // ---- a resolution that ends ----

  /** Applications are well-kinded, in a body as well as from outside. */
  ghost predicate BodiesKinded(body: Bodies, kinds: map<nat, seq<bool>>) {
    forall j, i | 0 <= i < |body(j)| :: Kinded(body(j)[i], kinds)
  }

  ghost predicate HasTree(k: Key, body: Bodies) { exists r: Req :: r.key == k && Unfolds(r, body) }

  /** An entry was stored for a key whose resolution ended. */
  ghost predicate StoredFor(e: Entry, body: Bodies, kinds: map<nat, seq<bool>>) {
    exists k: Key :: e == Stored(k, e.result) && Kinded(k, kinds) && HasTree(k, body)
  }

  ghost predicate Finished(st: State, body: Bodies, kinds: map<nat, seq<bool>>) {
    forall i | 0 <= i < |st.cache| :: StoredFor(st.cache[i], body, kinds)
  }

  lemma {:induction false} EndedHasTree(k: Key, body: Bodies, kinds: map<nat, seq<bool>>, st: State, fuel: nat)
    requires BodiesKinded(body, kinds) && Kinded(k, kinds) && Finished(st, body, kinds) && Resolve(k, body, st, fuel).ended
    ensures HasTree(k, body) && Finished(Resolve(k, body, st, fuel).st, body, kinds)
    decreases fuel, 0
  {
    hide Kinded, Stored, Matches, Unfolds;
    var i := Find(st.cache, k);
    if i < |st.cache| {
      assert StoredFor(st.cache[i], body, kinds);
      var l: Key :| st.cache[i] == Stored(l, st.cache[i].result) && Kinded(l, kinds) && HasTree(l, body);
      MatchesSameKey(l, k, st.cache[i].result, kinds);
    } else {
      var o := ResolveAll(body(k), body, st.(envs := st.envs + [k.args]), fuel - 1);
      var rs := EndedHasTrees(body(k), body, kinds, st.(envs := st.envs + [k.args]), fuel - 1);
      NodeUnfolds(k, rs, body);
      assert HasTree(k, body);
      StoreFinished(k, body, kinds, o.st);
    }
  }

  lemma NodeUnfolds(k: Key, rs: Reqs, body: Bodies)
    requires UnfoldsAll(rs, body(k), body)
    ensures Unfolds(Req(k, rs), body) && Req(k, rs).key == k
  {
  }

  lemma StoreFinished(k: Key, body: Bodies, kinds: map<nat, seq<bool>>, st: State)
    requires Finished(st, body, kinds) && Kinded(k, kinds) && HasTree(k, body)
    ensures Finished(After(k, st), body, kinds)
  {
    hide Kinded, HasTree;
    assert StoredFor(Stored(k, st.next), body, kinds) by { assert Stored(k, st.next) == Stored(k, Stored(k, st.next).result); }
  }

  lemma {:induction false} EndedHasTrees(ks: seq<Key>, body: Bodies, kinds: map<nat, seq<bool>>, st: State, fuel: nat) returns (rs: Reqs)
    requires BodiesKinded(body, kinds) && (forall i | 0 <= i < |ks| :: Kinded(ks[i], kinds)) && Finished(st, body, kinds)
    requires ResolveAll(ks, body, st, fuel).ended
    ensures UnfoldsAll(rs, ks, body) && Finished(ResolveAll(ks, body, st, fuel).st, body, kinds)
    decreases fuel, |ks| + 1
  {
    hide Kinded, BodiesKinded, Finished;
    if ks == [] {
      rs := Nil;
    } else {
      EndedHasTree(ks[0], body, kinds, st, fuel);
      var r: Req :| r.key == ks[0] && Unfolds(r, body);
      var rest := EndedHasTrees(ks[1..], body, kinds, Resolve(ks[0], body, st, fuel).st, fuel);
      rs := Cons(r, rest);
    }
  }

  ghost predicate Ends(k: Key, body: Bodies, st: State) { exists fuel: nat :: Resolve(k, body, st, fuel).ended }

  /** Resolution ends, from an empty cache, exactly when the applications below the key form a finite tree. */
  lemma EndsExactly(k: Key, body: Bodies, kinds: map<nat, seq<bool>>, envs: seq<seq<Arg>>)
    requires BodiesKinded(body, kinds) && Kinded(k, kinds)
    ensures Ends(k, body, State(envs, [], 1)) <==> HasTree(k, body)
  {
    hide Kinded, BodiesKinded, Resolve, Unfolds;
    var st := State(envs, [], 1);
    if Ends(k, body, st) {
      var fuel: nat :| Resolve(k, body, st, fuel).ended;
      EndedHasTree(k, body, kinds, st, fuel);
    }
    if HasTree(k, body) {
      var r: Req :| r.key == k && Unfolds(r, body);
      ResolveIsRun(r, body, st, Depth(r));
      assert Resolve(k, body, st, Depth(r)).ended;
    }
  }

  // ---- an application that meets itself ----

  /** A body's tree is unique. */
  lemma {:induction false} SameTree(r: Req, q: Req, body: Bodies)
    requires Unfolds(r, body) && Unfolds(q, body) && r.key == q.key
    ensures r == q
    decreases r
  {
    SameTrees(r.parts, q.parts, body(r.key), body);
  }

  lemma {:induction false} SameTrees(rs: Reqs, qs: Reqs, ks: seq<Key>, body: Bodies)
    requires UnfoldsAll(rs, ks, body) && UnfoldsAll(qs, ks, body)
    ensures rs == qs
    decreases rs
  {
    match rs
    case Nil =>
    case Cons(r, rest) =>
      SameTree(r, qs.head, body);
      SameTrees(rest, qs.tail, ks[1..], body);
  }

  lemma {:induction false} PartOf(rs: Reqs, ks: seq<Key>, body: Bodies, k: Key) returns (r: Req)
    requires UnfoldsAll(rs, ks, body) && k in ks
    ensures r.key == k && Unfolds(r, body) && Size(r) <= SizeAll(rs)
    decreases rs
  {
    match rs
    case Cons(head, rest) =>
      if head.key == k {
        r := head;
      } else {
        r := PartOf(rest, ks[1..], body, k);
      }
  }

  // ---- a condition on the declarations ----

  /** Every application in a body ranks below the one whose body it is. */
  ghost predicate Ranked(rank: map<Key, nat>, body: Bodies) {
    forall k | k in rank :: forall i | 0 <= i < |body(k)| :: body(k)[i] in rank && rank[body(k)[i]] < rank[k]
  }

  ghost predicate HasRank(k: Key, body: Bodies) { exists rank: map<Key, nat> :: k in rank && Ranked(rank, body) }

  lemma {:induction false} RankedHasTree(k: Key, body: Bodies, rank: map<Key, nat>)
    requires k in rank && Ranked(rank, body)
    ensures HasTree(k, body)
    decreases rank[k], 1, 0
  {
    hide Unfolds;
    var rs := RankedHasTrees(body(k), body, rank, rank[k]);
    NodeUnfolds(k, rs, body);
  }

  lemma {:induction false} RankedHasTrees(ks: seq<Key>, body: Bodies, rank: map<Key, nat>, bound: nat) returns (rs: Reqs)
    requires Ranked(rank, body) && forall i | 0 <= i < |ks| :: ks[i] in rank && rank[ks[i]] < bound
    ensures UnfoldsAll(rs, ks, body)
    decreases bound, 0, |ks|
  {
    hide Ranked;
    if ks == [] {
      rs := Nil;
    } else {
      RankedHasTree(ks[0], body, rank);
      var r: Req :| r.key == ks[0] && Unfolds(r, body);
      var rest := RankedHasTrees(ks[1..], body, rank, bound);
      rs := Cons(r, rest);
    }
  }

  /** The keys of a tree, ranked by the depth of their own trees. */
  ghost function Depths(r: Req, body: Bodies): map<Key, nat>
  {
    map k | k in KeysOf(r) && HasTree(k, body) :: Depth(TreeOf(k, body))
  }

  ghost function TreeOf(k: Key, body: Bodies): (r: Req)
    requires HasTree(k, body)
    ensures r.key == k && Unfolds(r, body)
  {
    var r: Req :| r.key == k && Unfolds(r, body);
    r
  }

  lemma {:induction false} KeyHasTree(r: Req, body: Bodies, k: Key)
    requires Unfolds(r, body) && k in KeysOf(r)
    ensures HasTree(k, body) && forall i | 0 <= i < |body(k)| :: body(k)[i] in KeysOf(r)
    decreases r
  {
    if k == r.key {
      DirectKeys(r.parts, body(k), body);
    } else {
      KeyHasTreeAll(r.parts, body(r.key), body, k);
    }
  }

  lemma {:induction false} KeyHasTreeAll(rs: Reqs, ks: seq<Key>, body: Bodies, k: Key)
    requires UnfoldsAll(rs, ks, body) && k in KeysOfAll(rs)
    ensures HasTree(k, body) && forall i | 0 <= i < |body(k)| :: body(k)[i] in KeysOfAll(rs)
    decreases rs
  {
    match rs
    case Cons(r, rest) => if k in KeysOf(r) { KeyHasTree(r, body, k); } else { KeyHasTreeAll(rest, ks[1..], body, k); }
  }

  lemma {:induction false} DirectKeys(rs: Reqs, ks: seq<Key>, body: Bodies)
    requires UnfoldsAll(rs, ks, body)
    ensures forall i | 0 <= i < |ks| :: ks[i] in KeysOfAll(rs)
    decreases rs
  {
    match rs
    case Nil =>
    case Cons(r, rest) =>
      DirectKeys(rest, ks[1..], body);
      forall i | 0 <= i < |ks| ensures ks[i] in KeysOfAll(rs) { if i > 0 { assert ks[i] == ks[1..][i - 1]; } }
  }

  lemma {:induction false} PartDepth(rs: Reqs, ks: seq<Key>, body: Bodies, k: Key)
    requires UnfoldsAll(rs, ks, body) && k in ks && HasTree(k, body)
    ensures Depth(TreeOf(k, body)) <= DepthAll(rs)
    decreases rs
  {
    match rs
    case Cons(r, rest) => if r.key == k { SameTree(r, TreeOf(k, body), body); } else { PartDepth(rest, ks[1..], body, k); }
  }

  lemma TreeRanked(r: Req, body: Bodies)
    requires Unfolds(r, body)
    ensures r.key in Depths(r, body) && Ranked(Depths(r, body), body)
  {
    hide Unfolds, Depth;
    KeyHasTree(r, body, r.key);
    forall k | k in Depths(r, body) ensures forall i | 0 <= i < |body(k)| :: body(k)[i] in Depths(r, body) && Depths(r, body)[body(k)[i]] < Depths(r, body)[k] {
      KeyHasTree(r, body, k);
      forall i | 0 <= i < |body(k)| ensures body(k)[i] in Depths(r, body) && Depths(r, body)[body(k)[i]] < Depths(r, body)[k] {
        KeyHasTree(r, body, body(k)[i]);
        NodeDepth(k, body, body(k)[i]);
      }
    }
  }

  lemma NodeDepth(k: Key, body: Bodies, l: Key)
    requires HasTree(k, body) && l in body(k) && HasTree(l, body)
    ensures Depth(TreeOf(l, body)) < Depth(TreeOf(k, body))
  {
    PartDepth(TreeOf(k, body).parts, body(k), body, l);
  }

  /** Resolution ends, from an empty cache, exactly when the applications that can be reached from the key can be ranked
      so that every body only contains lower ones. */
  lemma EndsRanked(k: Key, body: Bodies, kinds: map<nat, seq<bool>>, envs: seq<seq<Arg>>)
    requires BodiesKinded(body, kinds) && Kinded(k, kinds)
    ensures Ends(k, body, State(envs, [], 1)) <==> HasRank(k, body)
  {
    hide Kinded, BodiesKinded, Unfolds, Ranked;
    EndsExactly(k, body, kinds, envs);
    if HasTree(k, body) { TreeRanked(TreeOf(k, body), body); }
    if HasRank(k, body) {
      var rank: map<Key, nat> :| k in rank && Ranked(rank, body);
      RankedHasTree(k, body, rank);
    }
  }

  /** An application that its own body contains, as in `Node :: struct($T: typeid) { next: ^Node(T) }`, is never resolved:
      no depth of recursion is enough. */
  lemma SelfApplicationNeverEnds(k: Key, body: Bodies, kinds: map<nat, seq<bool>>, envs: seq<seq<Arg>>, fuel: nat)
    requires BodiesKinded(body, kinds) && Kinded(k, kinds) && k in body(k)
    ensures !Resolve(k, body, State(envs, [], 1), fuel).ended
  {
    hide Kinded, BodiesKinded, Resolve, Unfolds;
    EndsExactly(k, body, kinds, envs);
    if HasTree(k, body) { NoTree(k, body); }
  }

  lemma NoTree(k: Key, body: Bodies)
    requires k in body(k)
    ensures !HasTree(k, body)
  {
    if HasTree(k, body) {
      var r: Req :| r.key == k && Unfolds(r, body);
      var q := PartOf(r.parts, body(k), body, k);
      SameTree(r, q, body);
      assert false;
    }
  }
}
