module SymbolTable {
  // The symbols of one scope: symbol objects in a chained hash table, where a name that is added again keeps its object.

  import opened HashTable
  import Scopes

  class Symbol {
    const name: Key
    var value: Scopes.TypedValue

    constructor (name: Key, value: Scopes.TypedValue)
      ensures this.name == name && this.value == value
    {
      this.name, this.value := name, value;
    }
  }

  class Symbols {
    const byName: Table<Symbol>

    /** Each symbol stands under its own name. */
    ghost predicate Valid()
      reads byName, byName.buckets, NodesOf(byName.chains)
    {
      byName.Valid() && forall n | n in byName.contents :: byName.contents[n].name == n
    }

    constructor (hash: Key -> nat)
      ensures Valid() && byName.contents == map[] && fresh(byName) && fresh(byName.buckets) && NodesOf(byName.chains) == {}
    {
      byName := new Table(128, hash);
    }

    method Lookup(name: Key) returns (symbol: Symbol?)
      requires Valid()
      ensures Valid()
      ensures symbol == if name in byName.contents then byName.contents[name] else null
    {
      var found := byName.Lookup(name);
      symbol := if found.Some? then found.value else null;
    }

    /** A new symbol under a new name. */
    method Enter(name: Key, value: Scopes.TypedValue)
      requires Valid() && name !in byName.contents
      modifies byName, byName.buckets, NodesOf(byName.chains)
      ensures Valid() && name in byName.contents && fresh(byName.contents[name]) && byName.contents[name].value == value
      ensures byName.contents == old(byName.contents)[name := byName.contents[name]]
      ensures forall x | x in NodesOf(byName.chains) :: x in old(NodesOf(byName.chains)) || fresh(x)
      ensures byName.buckets == old(byName.buckets) || fresh(byName.buckets)
    {
      hide Placed, Represents, Linked;
      var symbol := new Symbol(name, value);
      var added := byName.Insert(name, symbol);
    }

    /** A symbol's value is no part of the table. */
    method Update(name: Key, value: Scopes.TypedValue)
      requires Valid() && name in byName.contents
      modifies byName.contents[name]
      ensures Valid() && byName.contents[name].value == value
    {
      hide Placed, Represents, Linked;
      var symbol := Lookup(name);
      symbol.value := value;
    }

    /** A known name keeps its symbol and gets the value; a new name gets a new symbol. However the table was rehashed,
        every name stands for the object it stood for. */
    method Add(name: Key, value: Scopes.TypedValue)
      requires Valid()
      modifies byName, byName.buckets, NodesOf(byName.chains), byName.contents.Values
      ensures Valid() && byName.contents.Keys == old(byName.contents.Keys) + {name} && byName.contents[name].value == value
      ensures forall n | n in old(byName.contents) :: byName.contents[n] == old(byName.contents[n])
      ensures forall n | n in old(byName.contents) && n != name :: byName.contents[n].value == old(byName.contents[n].value)
      ensures name !in old(byName.contents) ==> fresh(byName.contents[name])
      ensures forall x | x in NodesOf(byName.chains) :: x in old(NodesOf(byName.chains)) || fresh(x)
      ensures byName.buckets == old(byName.buckets) || fresh(byName.buckets)
    {
      hide Placed, Represents, Linked, Table.Valid;
      var existing := Lookup(name);
      if existing != null {
        Update(name, value);
      } else {
        Enter(name, value);
      }
    }

    /** Over any number of additions, and the rehashes they cause, every symbol stays and holds the last value. */
    method Replay(entries: seq<(Key, Scopes.TypedValue)>)
      requires Valid()
      modifies byName, byName.buckets, NodesOf(byName.chains), byName.contents.Values
      ensures Valid() && byName.contents.Keys == old(byName.contents.Keys) + Names(entries)
      ensures forall n | n in old(byName.contents) :: byName.contents[n] == old(byName.contents[n])
      ensures forall n | n in Names(entries) :: byName.contents[n].value == Last(entries, n)
      ensures forall n | n in old(byName.contents) && n !in Names(entries) :: byName.contents[n].value == old(byName.contents[n].value)
      ensures forall n | n in byName.contents && n !in old(byName.contents) :: fresh(byName.contents[n])
      ensures forall x | x in NodesOf(byName.chains) :: x in old(NodesOf(byName.chains)) || fresh(x)
      ensures byName.buckets == old(byName.buckets) || fresh(byName.buckets)
      decreases |entries|
    {
      hide Placed, Represents, Linked, Table.Valid;
      if entries != [] {
        Replay(entries[..|entries| - 1]);
        Add(entries[|entries| - 1].0, entries[|entries| - 1].1);
      }
    }
  }

  function Names(entries: seq<(Key, Scopes.TypedValue)>): set<Key> { if entries == [] then {} else Names(entries[..|entries| - 1]) + {entries[|entries| - 1].0} }

  /** The value a name was given last. */
  function Last(entries: seq<(Key, Scopes.TypedValue)>, name: Key): Scopes.TypedValue
    requires name in Names(entries)
  {
    var e := entries[|entries| - 1];
    if e.0 == name then e.1 else Last(entries[..|entries| - 1], name)
  }
}
