module HashTable {
  // The chained hash table: buckets of linked nodes, new nodes pushed in front, and a resize that relinks the
  // existing nodes into twice as many buckets.

  datatype Option<+T> = None | Some(value: T)

  /** Keys are compared by their text. */
  type Key = string

  class Node<V> {
    const key: Key
    const value: V
    var next: Node?<V>

    constructor (key: Key, value: V, next: Node?<V>)
      ensures this.key == key && this.value == value && this.next == next
    {
      this.key, this.value, this.next := key, value, next;
    }
  }

  /** The nodes of a chain are linked in order from its head. */
  ghost predicate Linked<V>(head: Node?<V>, chain: seq<Node<V>>)
    reads chain
  {
    && head == (if chain == [] then null else chain[0])
    && forall k {:trigger chain[k].next} | 0 <= k < |chain| :: chain[k].next == if k + 1 < |chain| then chain[k + 1] else null
  }

  /** Every node is in the bucket its hash selects, and no chain holds a key twice. */
  ghost predicate Placed<V>(hash: Key -> nat, chains: seq<seq<Node<V>>>) {
    && |chains| > 0
    && (forall i, a | 0 <= i < |chains| && 0 <= a < |chains[i]| :: hash(chains[i][a].key) % |chains| == i)
    && (forall i, a, b | 0 <= i < |chains| && 0 <= a < b < |chains[i]| :: chains[i][a].key != chains[i][b].key)
  }

  ghost predicate HasKey<V>(chain: seq<Node<V>>, key: Key) {
    exists a :: 0 <= a < |chain| && chain[a].key == key
  }

  /** The nodes hold exactly the entries of the map. */
  ghost predicate Represents<V>(nodes: set<Node<V>>, m: map<Key, V>) {
    && (forall n | n in nodes :: n.key in m && m[n.key] == n.value)
    && (forall k | k in m :: HasNode(nodes, k))
  }

  ghost predicate HasNode<V>(nodes: set<Node<V>>, key: Key) {
    exists n :: n in nodes && n.key == key
  }

  ghost predicate KeysUnique<V>(nodes: set<Node<V>>) {
    forall x, y | x in nodes && y in nodes && x.key == y.key :: x == y
  }

  ghost function NodesOf<V>(chains: seq<seq<Node<V>>>): set<Node<V>> {
    set i, a | 0 <= i < |chains| && 0 <= a < |chains[i]| :: chains[i][a]
  }

  lemma NodeIn<V>(chains: seq<seq<Node<V>>>, i: int, a: int)
    requires 0 <= i < |chains| && 0 <= a < |chains[i]|
    ensures chains[i][a] in NodesOf(chains)
  {
  }

  lemma Holds<V>(chains: seq<seq<Node<V>>>, m: map<Key, V>, i: int, a: int)
    requires Represents(NodesOf(chains), m) && 0 <= i < |chains| && 0 <= a < |chains[i]|
    ensures chains[i][a].key in m && m[chains[i][a].key] == chains[i][a].value
  {
    NodeIn(chains, i, a);
  }

  /** A node is found in the bucket of its hash, and nowhere else. */
  lemma Found<V>(hash: Key -> nat, chains: seq<seq<Node<V>>>, m: map<Key, V>, key: Key)
    requires Placed(hash, chains) && Represents(NodesOf(chains), m)
    ensures key in m <==> HasKey(chains[hash(key) % |chains|], key)
  {
    if key in m {
      assert HasNode(NodesOf(chains), key);
      var n :| n in NodesOf(chains) && n.key == key;
      var i, a :| 0 <= i < |chains| && 0 <= a < |chains[i]| && chains[i][a] == n;
    }
    if HasKey(chains[hash(key) % |chains|], key) {
      var a :| 0 <= a < |chains[hash(key) % |chains|]| && chains[hash(key) % |chains|][a].key == key;
      NodeIn(chains, hash(key) % |chains|, a);
    }
  }

  lemma PlacedUnique<V>(hash: Key -> nat, chains: seq<seq<Node<V>>>)
    requires Placed(hash, chains)
    ensures KeysUnique(NodesOf(chains))
  {
    forall x, y | x in NodesOf(chains) && y in NodesOf(chains) && x.key == y.key ensures x == y {
      var i, a :| 0 <= i < |chains| && 0 <= a < |chains[i]| && chains[i][a] == x;
      var j, b :| 0 <= j < |chains| && 0 <= b < |chains[j]| && chains[j][b] == y;
      assert i == j;
    }
  }

  /** Pushing a node whose key is new, in front of the chain of its hash. */
  lemma Pushed<V>(hash: Key -> nat, chains: seq<seq<Node<V>>>, node: Node<V>)
    requires Placed(hash, chains) && forall n | n in NodesOf(chains) :: n.key != node.key
    ensures var k := hash(node.key) % |chains|; var after := chains[k := [node] + chains[k]];
      Placed(hash, after) && NodesOf(after) == NodesOf(chains) + {node}
  {
    var k := hash(node.key) % |chains|;
    var after := chains[k := [node] + chains[k]];
    forall a | 0 <= a < |chains[k]| ensures chains[k][a].key != node.key { NodeIn(chains, k, a); }
    forall n ensures n in NodesOf(after) <==> n in NodesOf(chains) + {node} {
      if n in NodesOf(chains) {
        var i, a :| 0 <= i < |chains| && 0 <= a < |chains[i]| && chains[i][a] == n;
        NodeIn(after, i, if i == k then a + 1 else a);
      }
      if n == node { NodeIn(after, k, 0); }
      if n in NodesOf(after) {
        var i, a :| 0 <= i < |after| && 0 <= a < |after[i]| && after[i][a] == n;
        if i != k { NodeIn(chains, i, a); } else if a > 0 { NodeIn(chains, k, a - 1); }
      }
    }
  }

  lemma PushedContents<V>(nodes: set<Node<V>>, node: Node<V>, m: map<Key, V>)
    requires Represents(nodes, m) && node.key !in m
    ensures Represents(nodes + {node}, m[node.key := node.value])
    ensures forall n | n in nodes :: n.key != node.key
    ensures |m[node.key := node.value]| == |m| + 1
  {
    forall k | k in m[node.key := node.value] ensures HasNode(nodes + {node}, k) {
      if k == node.key { assert node in nodes + {node}; } else {
        assert HasNode(nodes, k);
        var n :| n in nodes && n.key == k;
        assert n in nodes + {node};
      }
    }
    MapSize(m);
    MapSize(m[node.key := node.value]);
    assert m[node.key := node.value].Keys == m.Keys + {node.key};
  }

  /** Taking a node out of its chain. */
  lemma Dropped<V>(hash: Key -> nat, chains: seq<seq<Node<V>>>, i: int, p: int)
    requires Placed(hash, chains) && 0 <= i < |chains| && 0 <= p < |chains[i]|
    ensures var after := chains[i := Without(chains[i], p)];
      Placed(hash, after) && NodesOf(after) == NodesOf(chains) - {chains[i][p]}
  {
    DroppedNodes(hash, chains, i, p);
  }

  lemma DroppedNodes<V>(hash: Key -> nat, chains: seq<seq<Node<V>>>, i: int, p: int)
    requires Placed(hash, chains) && 0 <= i < |chains| && 0 <= p < |chains[i]|
    ensures NodesOf(chains[i := Without(chains[i], p)]) == NodesOf(chains) - {chains[i][p]}
  {
    hide Placed;
    var node := chains[i][p];
    var after := chains[i := Without(chains[i], p)];
    Elsewhere(hash, chains, i, p);
    forall n ensures n in NodesOf(after) <==> n in NodesOf(chains) - {node} {
      if n in NodesOf(chains) && n != node {
        var j, a := Position(chains, n);
        NodeIn(after, j, if j == i && a > p then a - 1 else a);
      }
      if n in NodesOf(after) {
        var j, a := Position(after, n);
        NodeIn(chains, j, if j == i && a >= p then a + 1 else a);
        assert n != node;
      }
    }
    assert NodesOf(after) == NodesOf(chains) - {node};
  }

  lemma Position<V>(chains: seq<seq<Node<V>>>, n: Node<V>) returns (i: int, a: int)
    requires n in NodesOf(chains)
    ensures 0 <= i < |chains| && 0 <= a < |chains[i]| && chains[i][a] == n
  {
    i, a :| 0 <= i < |chains| && 0 <= a < |chains[i]| && chains[i][a] == n;
  }

  function Without<T>(s: seq<T>, p: nat): (r: seq<T>)
    requires p < |s|
    ensures |r| == |s| - 1
    ensures forall a | 0 <= a < |r| :: r[a] == if a < p then s[a] else s[a + 1]
  {
    s[..p] + s[p + 1..]
  }

  lemma DroppedContents<V>(nodes: set<Node<V>>, node: Node<V>, m: map<Key, V>)
    requires Represents(nodes, m) && KeysUnique(nodes) && node in nodes
    ensures Represents(nodes - {node}, m - {node.key})
    ensures |m| == |m - {node.key}| + 1 && m[node.key] == node.value
  {
    forall k | k in m - {node.key} ensures HasNode(nodes - {node}, k) {
      assert HasNode(nodes, k);
      var n :| n in nodes && n.key == k;
      assert n in nodes - {node};
    }
    MapSize(m);
    MapSize(m - {node.key});
    assert (m - {node.key}).Keys == m.Keys - {node.key};
  }

  /** The nodes already passed do not contain the next one. */
  lemma NotPassed<V>(hash: Key -> nat, chains: seq<seq<Node<V>>>, i: int, p: int)
    requires Placed(hash, chains) && 0 <= i < |chains| && 0 <= p < |chains[i]|
    ensures forall n | n in Passed(chains, i, p) :: n.key != chains[i][p].key
    ensures Passed(chains, i, p + 1) == Passed(chains, i, p) + {chains[i][p]}
  {
  }

  lemma PassedChain<V>(chains: seq<seq<Node<V>>>, i: int)
    requires 0 <= i < |chains|
    ensures Passed(chains, i, |chains[i]|) == Passed(chains, i + 1, 0)
  {
  }

  lemma NothingMoved<V>(hash: Key -> nat, chains: seq<seq<Node<V>>>, moved: seq<seq<Node<V>>>)
    requires |moved| > 0 && forall j | 0 <= j < |moved| :: moved[j] == []
    ensures Placed(hash, moved) && NodesOf(moved) == Passed(chains, 0, 0)
  {
  }

  lemma AllPassed<V>(chains: seq<seq<Node<V>>>)
    ensures Passed(chains, |chains|, 0) == NodesOf(chains)
  {
  }

  /** A node occurs once. */
  lemma Elsewhere<V>(hash: Key -> nat, chains: seq<seq<Node<V>>>, i: int, p: int)
    requires Placed(hash, chains) && 0 <= i < |chains| && 0 <= p < |chains[i]|
    ensures forall j | 0 <= j < |chains| && j != i :: chains[i][p] !in chains[j]
    ensures forall q | 0 <= q < |chains[i]| && q != p :: chains[i][q] != chains[i][p]
  {
  }

  lemma NotIn<V>(chains: seq<seq<Node<V>>>, node: Node<V>)
    requires node !in NodesOf(chains)
    ensures forall j | 0 <= j < |chains| :: node !in chains[j]
  {
    forall j, a | 0 <= j < |chains| && 0 <= a < |chains[j]| ensures chains[j][a] != node { NodeIn(chains, j, a); }
  }

  ghost function Passed<V>(chains: seq<seq<Node<V>>>, i: int, p: int): set<Node<V>>
    requires 0 <= i <= |chains|
  {
    set j, a | 0 <= j < |chains| && 0 <= a < |chains[j]| && (j < i || (j == i && a < p)) :: chains[j][a]
  }

  lemma MapSize<V>(m: map<Key, V>)
    ensures |m| == |m.Keys|
  {
  }

  class Table<V> {
    const hash: Key -> nat
    var buckets: array<Node?<V>>
    var size: nat
    ghost var chains: seq<seq<Node<V>>>
    ghost var contents: map<Key, V>

    /** Besides the links and the map, the load never exceeds three quarters. */
    ghost predicate Valid()
      reads this, buckets, NodesOf(chains)
    {
      && |chains| == buckets.Length > 0 && Placed(hash, chains)
      && (forall i | 0 <= i < buckets.Length :: Linked(buckets[i], chains[i]))
      && Represents(NodesOf(chains), contents)
      && size == |contents| && 4 * size <= 3 * buckets.Length
    }

    constructor (count: nat, hash: Key -> nat)
      ensures Valid() && fresh(buckets) && contents == map[] && this.hash == hash
      ensures NodesOf(chains) == {}
    {
      this.hash := hash;
      var n := if count == 0 then 128 else count;
      buckets := new Node?<V>[n](i => null);
      chains := seq(n, i => []);
      size, contents := 0, map[];
    }

    method Lookup(key: Key) returns (r: Option<V>)
      requires Valid()
      ensures r == if key in contents then Some(contents[key]) else None
    {
      hide Represents, Placed, NodesOf;
      var i := hash(key) % buckets.Length;
      var e := buckets[i];
      ghost var chain := chains[i];
      assert Linked(e, chain);
      ghost var p := 0;
      Found(hash, chains, contents, key);
      while e != null
        invariant 0 <= p <= |chain| && e == if p < |chain| then chain[p] else null
        invariant forall q | 0 <= q < p :: chain[q].key != key
        decreases |chain| - p
      {
        if e.key == key {
          Holds(chains, contents, i, p);
          return Some(e.value);
        }
        e := e.next;
        p := p + 1;
      }
      return None;
    }

    /** A key that is present is refused and nothing changes; a new key is added. */
    method Insert(key: Key, value: V) returns (added: bool)
      requires Valid()
      modifies this, buckets, NodesOf(chains)
      ensures Valid() && added == (key !in old(contents))
      ensures contents == if added then old(contents)[key := value] else old(contents)
      ensures fresh(NodesOf(chains) - old(NodesOf(chains))) && fresh({buckets} - {old(buckets)})
      ensures !added ==> buckets == old(buckets) && chains == old(chains)
    {
      hide Placed, Represents, Linked, NodesOf;
      var found := Lookup(key);
      if found.Some? { return false; }
      ghost var node := Push(key, value);
      if 4 * size > 3 * buckets.Length {
        Resize(2 * buckets.Length);
      }
      return true;
    }

    /** Link a new node in front of its chain. */
    method Push(key: Key, value: V) returns (ghost node: Node<V>)
      requires Valid() && key !in contents
      modifies this`chains, this`contents, this`size, buckets
      ensures |chains| == buckets.Length && Placed(hash, chains) && Represents(NodesOf(chains), contents)
      ensures forall i | 0 <= i < buckets.Length :: Linked(buckets[i], chains[i])
      ensures contents == old(contents)[key := value] && size == |contents| == old(size) + 1
      ensures fresh(node) && NodesOf(chains) == old(NodesOf(chains)) + {node}
    {
      hide Placed, Represents, NodesOf;
      var i := hash(key) % buckets.Length;
      var entry := new Node(key, value, buckets[i]);
      node := entry;
      PushedContents(NodesOf(chains), node, contents);
      Pushed(hash, chains, node);
      buckets[i] := entry;
      forall j | 0 <= j < buckets.Length ensures Linked(buckets[j], if j == i then [node] + chains[i] else chains[j]) {
        assert old(Linked(buckets[j], chains[j]));
      }
      chains := chains[i := [node] + chains[i]];
      contents := contents[key := value];
      size := size + 1;
    }

    /** Relink every node, unchanged, into new buckets. The map stays the same. */
    method Resize(count: nat)
      requires count > 0 && |chains| == buckets.Length && Placed(hash, chains) && Represents(NodesOf(chains), contents)
      requires forall i | 0 <= i < buckets.Length :: Linked(buckets[i], chains[i])
      modifies this`buckets, this`chains, NodesOf(chains)
      ensures |chains| == buckets.Length == count && Placed(hash, chains) && Represents(NodesOf(chains), contents)
      ensures forall i | 0 <= i < buckets.Length :: Linked(buckets[i], chains[i])
      ensures NodesOf(chains) == old(NodesOf(chains)) && fresh(buckets)
    {
      hide Placed, Represents, NodesOf, Passed;
      var bigger := new Node?<V>[count](i => null);
      ghost var moved: seq<seq<Node<V>>> := seq(count, i => []);
      NothingMoved(hash, chains, moved);
      var i := 0;
      while i < buckets.Length
        invariant 0 <= i <= buckets.Length && buckets == old(buckets) && chains == old(chains)
        invariant |moved| == count == bigger.Length && fresh(bigger)
        invariant Placed(hash, moved) && NodesOf(moved) == Passed(chains, i, 0)
        invariant forall j | 0 <= j < count :: Linked(bigger[j], moved[j])
        invariant forall j | i <= j < buckets.Length :: Linked(buckets[j], chains[j])
      {
        moved := MoveChain(i, bigger, moved);
        i := i + 1;
      }
      AllPassed(chains);
      buckets := bigger;
      chains := moved;
    }

    method MoveChain(i: nat, bigger: array<Node?<V>>, ghost before: seq<seq<Node<V>>>) returns (ghost moved: seq<seq<Node<V>>>)
      requires |chains| == buckets.Length && Placed(hash, chains) && i < buckets.Length && bigger != buckets
      requires |before| == bigger.Length > 0 && Placed(hash, before) && NodesOf(before) == Passed(chains, i, 0)
      requires forall j | 0 <= j < bigger.Length :: Linked(bigger[j], before[j])
      requires forall j | i <= j < buckets.Length :: Linked(buckets[j], chains[j])
      modifies bigger, NodesOf(chains)
      ensures |moved| == bigger.Length && Placed(hash, moved) && NodesOf(moved) == Passed(chains, i + 1, 0)
      ensures forall j | 0 <= j < bigger.Length :: Linked(bigger[j], moved[j])
      ensures forall j | i < j < buckets.Length :: Linked(buckets[j], chains[j])
    {
      hide Placed, Represents, NodesOf, Passed;
      PassedChain(chains, i);
      var count := bigger.Length;
      var e := buckets[i];
      ghost var chain := chains[i];
      assert Linked(e, chain);
      moved := before;
      ghost var p := 0;
      while e != null
        invariant 0 <= p <= |chain| && e == if p < |chain| then chain[p] else null
        invariant |moved| == count && Placed(hash, moved) && NodesOf(moved) == Passed(chains, i, p)
        invariant forall j | 0 <= j < count :: Linked(bigger[j], moved[j])
        invariant forall j | i < j < buckets.Length :: Linked(buckets[j], chains[j])
        invariant forall q {:trigger chain[q].next} | p <= q < |chain| :: chain[q].next == if q + 1 < |chain| then chain[q + 1] else null
        decreases |chain| - p
      {
        var next := e.next;
        var k := hash(e.key) % count;
        NotPassed(hash, chains, i, p);
        NodeIn(chains, i, p);
        Elsewhere(hash, chains, i, p);
        Pushed(hash, moved, e);
        NotIn(moved, e);
        e.next := bigger[k];
        bigger[k] := e;
        moved := moved[k := [e] + moved[k]];
        e := next;
        p := p + 1;
      }
    }

    /** Unlink the node of a key, and give back its value. */
    method Remove(key: Key) returns (r: Option<V>)
      requires Valid()
      modifies this`chains, this`contents, this`size, buckets, NodesOf(chains)
      ensures Valid() && contents == old(contents) - {key}
      ensures r == if key in old(contents) then Some(old(contents)[key]) else None
      ensures NodesOf(chains) <= old(NodesOf(chains))
    {
      hide Represents, NodesOf;
      var i := hash(key) % buckets.Length;
      var e := buckets[i];
      ghost var chain := chains[i];
      assert Linked(e, chain);
      var prev: Node?<V> := null;
      ghost var p := 0;
      Found(hash, chains, contents, key);
      while e != null
        invariant 0 <= p <= |chain| && e == if p < |chain| then chain[p] else null
        invariant prev == if p > 0 then chain[p - 1] else null
        invariant forall q | 0 <= q < p :: chain[q].key != key
        decreases |chain| - p
      {
        if e.key == key {
          r := Some(e.value);
          Unlink(i, prev, e, p);
          return;
        }
        prev := e;
        e := e.next;
        p := p + 1;
      }
      assert contents - {key} == contents;
      return None;
    }

    method Unlink(i: nat, prev: Node?<V>, e: Node<V>, ghost p: nat)
      requires Valid() && i < buckets.Length && p < |chains[i]| && e == chains[i][p]
      requires prev == if p > 0 then chains[i][p - 1] else null
      modifies this`chains, this`contents, this`size, buckets, NodesOf(chains)
      ensures Valid() && contents == old(contents) - {e.key}
      ensures e.key in old(contents) && old(contents)[e.key] == e.value
      ensures NodesOf(chains) <= old(NodesOf(chains))
    {
      hide Represents, Placed, NodesOf, KeysUnique;
      ghost var chain := chains[i];
      NodeIn(chains, i, p);
      if p > 0 {
        NodeIn(chains, i, p - 1);
        Elsewhere(hash, chains, i, p - 1);
      }
      Taken(hash, chains, contents, i, p);
      assert Linked(buckets[i], chain);
      if prev != null {
        prev.next := e.next;
      } else {
        buckets[i] := e.next;
      }
      ghost var after := chains[i := Without(chain, p)];
      assert Linked(buckets[i], after[i]);
      forall j | 0 <= j < buckets.Length ensures Linked(buckets[j], after[j]) {
        assert old(Linked(buckets[j], chains[j]));
      }
      hide Linked;
      chains := after;
      contents := contents - {e.key};
      size := size - 1;
    }

    /** The callback sees the value of every entry, once each. */
    method Iterate() returns (values: seq<V>, ghost keys: seq<Key>)
      requires Valid()
      ensures |values| == size && AllValues(contents, values)
      ensures |keys| == size && (set k | k in keys) == contents.Keys
      ensures forall x, y | 0 <= x < y < |keys| :: keys[x] != keys[y]
      ensures forall x | 0 <= x < |keys| :: keys[x] in contents && values[x] == contents[keys[x]]
    {
      values, keys := [], [];
      var i := 0;
      while i < buckets.Length
        invariant 0 <= i <= buckets.Length
        invariant Visited(Passed(chains, i, 0), contents, values, keys)
      {
        var e := buckets[i];
        ghost var chain := chains[i];
        ghost var p := 0;
        assert Linked(e, chain);
        while e != null
          invariant 0 <= p <= |chain| && e == if p < |chain| then chain[p] else null
          invariant Visited(Passed(chains, i, p), contents, values, keys)
          decreases |chain| - p
        {
          NotPassed(hash, chains, i, p);
          NodeIn(chains, i, p);
          VisitOne(Passed(chains, i, p), contents, values, keys, e);
          values := values + [e.value];
          keys := keys + [e.key];
          e := e.next;
          p := p + 1;
        }
        PassedChain(chains, i);
        i := i + 1;
      }
      AllPassed(chains);
      VisitedAll(NodesOf(chains), contents, values, keys);
      ValuesSeen(contents, values, keys);
    }
  }

  /** The values are those of the map. */
  ghost predicate AllValues<V>(m: map<Key, V>, values: seq<V>) {
    && (forall k | k in m :: m[k] in values)
    && (forall v | v in values :: exists k :: k in m && m[k] == v)
  }

  lemma ValuesSeen<V>(m: map<Key, V>, values: seq<V>, keys: seq<Key>)
    requires |values| == |keys| && (set k | k in keys) == m.Keys
    requires forall x | 0 <= x < |keys| :: keys[x] in m && values[x] == m[keys[x]]
    ensures AllValues(m, values)
  {
    forall k | k in m ensures m[k] in values {
      assert k in (set k' | k' in keys);
      var x :| 0 <= x < |keys| && keys[x] == k;
      assert values[x] == m[k];
    }
  }

  lemma Taken<V>(hash: Key -> nat, chains: seq<seq<Node<V>>>, m: map<Key, V>, i: int, p: int)
    requires Placed(hash, chains) && Represents(NodesOf(chains), m) && 0 <= i < |chains| && 0 <= p < |chains[i]|
    ensures var e := chains[i][p]; var after := chains[i := Without(chains[i], p)];
      && Placed(hash, after) && Represents(NodesOf(after), m - {e.key}) && NodesOf(after) <= NodesOf(chains)
      && e.key in m && m[e.key] == e.value && |m| == |m - {e.key}| + 1
  {
    hide Placed, NodesOf;
    NodeIn(chains, i, p);
    PlacedUnique(hash, chains);
    Dropped(hash, chains, i, p);
    DroppedContents(NodesOf(chains), chains[i][p], m);
  }

  /** The values and keys seen so far are those of the nodes passed, without repetition. */
  ghost predicate Visited<V>(nodes: set<Node<V>>, m: map<Key, V>, values: seq<V>, keys: seq<Key>) {
    && |values| == |keys|
    && (forall x, y | 0 <= x < y < |keys| :: keys[x] != keys[y])
    && (forall x | 0 <= x < |keys| :: keys[x] in m && values[x] == m[keys[x]] && HasNode(nodes, keys[x]))
    && (forall n | n in nodes :: n.key in keys)
  }

  lemma VisitOne<V>(nodes: set<Node<V>>, m: map<Key, V>, values: seq<V>, keys: seq<Key>, e: Node<V>)
    requires Visited(nodes, m, values, keys) && e.key in m && m[e.key] == e.value
    requires forall n | n in nodes :: n.key != e.key
    ensures Visited(nodes + {e}, m, values + [e.value], keys + [e.key])
  {
    var after := keys + [e.key];
    forall x | 0 <= x < |after| ensures HasNode(nodes + {e}, after[x]) && (x < |keys| ==> after[x] != e.key) {
      if x < |keys| {
        assert HasNode(nodes, keys[x]);
        var n :| n in nodes && n.key == keys[x];
        assert n in nodes + {e};
      } else {
        assert e in nodes + {e};
      }
    }
  }

  lemma VisitedAll<V>(nodes: set<Node<V>>, m: map<Key, V>, values: seq<V>, keys: seq<Key>)
    requires Visited(nodes, m, values, keys) && Represents(nodes, m)
    ensures (set k | k in keys) == m.Keys && |keys| == |m|
  {
    var seen := set k | k in keys;
    forall k | k in m ensures k in seen {
      assert HasNode(nodes, k);
      var n :| n in nodes && n.key == k;
    }
    assert seen == m.Keys;
    DistinctSize(keys);
    MapSize(m);
  }

  lemma {:induction false} DistinctSize(keys: seq<Key>)
    requires forall x, y | 0 <= x < y < |keys| :: keys[x] != keys[y]
    ensures |set k | k in keys| == |keys|
  {
    if keys != [] {
      var front, last := keys[..|keys| - 1], keys[|keys| - 1];
      DistinctSize(front);
      assert (set k | k in keys) == (set k | k in front) + {last};
    }
  }
}
