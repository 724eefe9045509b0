module Scopes {
  // Lexical scopes of the generator: a stack of scopes linked to their parents, symbols that are updated in place, and
  // scopes that are popped early but freed late because resolved names still point into them.

  datatype TypedValue = TypedValue(kind: int, value: int)

  // ---- a stack of frames, the meaning of the scopes ----

  type Frame = map<string, TypedValue>

  datatype Op = Push | Pop | Add(name: string, value: TypedValue)

  datatype Lookup = Missing | Bound(value: TypedValue)

  /** The innermost frame that has the name decides. */
  function Innermost(frames: seq<Frame>, name: string): Lookup {
    if frames == [] then Missing
    else if name in frames[|frames| - 1] then Bound(frames[|frames| - 1][name])
    else Innermost(frames[..|frames| - 1], name)
  }

  /** One operation. The frame at the bottom is global and stays. */
  function Step(frames: seq<Frame>, op: Op): (r: seq<Frame>)
    requires frames != []
    ensures r != []
  {
    var top := |frames| - 1;
    match op
    case Push => frames + [map[]]
    case Pop => if top > 0 then frames[..top] else frames
    case Add(name, value) => frames[top := frames[top][name := value]]
  }

  function Run(frames: seq<Frame>, ops: seq<Op>): (r: seq<Frame>)
    requires frames != []
    ensures r != []
  {
    if ops == [] then frames else Step(Run(frames, ops[..|ops| - 1]), ops[|ops| - 1])
  }

  /** The depth after a run that starts at depth 0 of its own, or -1 once it has left its own frames. */
  function Depth(ops: seq<Op>): int {
    if ops == [] then 0 else
      var d := Depth(ops[..|ops| - 1]);
      if d < 0 then -1 else
        match ops[|ops| - 1]
        case Push => d + 1
        case Pop => d - 1
        case Add(_, _) => if d > 0 then d else -1
  }

  /** A run that only touches frames it pushed itself leaves the frames it found. */
  lemma {:induction false} EnclosedKeeps(frames: seq<Frame>, ops: seq<Op>)
    requires frames != [] && Depth(ops) >= 0
    ensures |Run(frames, ops)| == |frames| + Depth(ops)
    ensures Run(frames, ops)[..|frames|] == frames
  {
    if ops != [] {
      EnclosedKeeps(frames, ops[..|ops| - 1]);
    }
  }

  /** Entering a block, working inside it and leaving it restores every lookup. */
  lemma BlockRestores(frames: seq<Frame>, ops: seq<Op>)
    requires frames != [] && Depth(ops) == 0
    ensures Run(frames, ops) == frames
  {
    EnclosedKeeps(frames, ops);
  }

  /** Inside a block the new binding shadows, and every other name means what it meant outside. */
  lemma AddShadows(frames: seq<Frame>, name: string, value: TypedValue, other: string)
    requires frames != []
    ensures Innermost(Step(Step(frames, Push), Add(name, value)), other) == if other == name then Bound(value) else Innermost(frames, other)
  {
    var inner := Step(Step(frames, Push), Add(name, value));
    assert inner[..|inner| - 1] == frames;
  }

  /** Adding to the current frame, whether it has the name or not, gives the name its new value and keeps all others. */
  lemma AddBinds(frames: seq<Frame>, name: string, value: TypedValue, other: string)
    requires frames != []
    ensures Innermost(Step(frames, Add(name, value)), other) == if other == name then Bound(value) else Innermost(frames, other)
  {
    var top := |frames| - 1;
    assert Step(frames, Add(name, value))[..top] == frames[..top];
  }

  /** How many blocks are open after a run; the global frame is not closed. */
  function Open(ops: seq<Op>): nat {
    if ops == [] then 0 else
      var d := Open(ops[..|ops| - 1]);
      match ops[|ops| - 1]
      case Push => d + 1
      case Pop => if d > 0 then d - 1 else 0
      case Add(_, _) => d
  }

  /** Read backwards: the last addition of the name outside the blocks closed since and the innermost `closed` open ones. */
  function LastAdded(ops: seq<Op>, name: string, closed: nat): Lookup {
    if ops == [] then Missing else
      var init := ops[..|ops| - 1];
      match ops[|ops| - 1]
      case Push => LastAdded(init, name, if closed > 0 then closed - 1 else 0)
      case Pop => LastAdded(init, name, if Open(init) > 0 then closed + 1 else closed)
      case Add(n, value) => if closed == 0 && n == name then Bound(value) else LastAdded(init, name, closed)
  }

  lemma {:induction false} RunLength(ops: seq<Op>)
    ensures |Run([map[]], ops)| == Open(ops) + 1
  {
    if ops != [] { RunLength(ops[..|ops| - 1]); }
  }

  /** The outer frames after a run, without the innermost `closed` ones. */
  function Outer(ops: seq<Op>, closed: nat): seq<Frame> {
    var frames := Run([map[]], ops);
    if closed < |frames| then frames[..|frames| - closed] else []
  }

  lemma OuterStep(ops: seq<Op>, closed: nat)
    requires ops != [] && closed <= Open(ops)
    ensures var init := ops[..|ops| - 1]; var frames := Run([map[]], init);
      match ops[|ops| - 1]
      case Push => Outer(ops, closed) == if closed > 0 then Outer(init, closed - 1) else frames + [map[]]
      case Pop => Outer(ops, closed) == Outer(init, if Open(init) > 0 then closed + 1 else closed)
      case Add(n, value) => if closed > 0 then Outer(ops, closed) == Outer(init, closed) else Outer(ops, 0) == Step(frames, Add(n, value))
  {
    RunLength(ops);
    RunLength(ops[..|ops| - 1]);
  }

  /** After any run, a name means what it was last given in a block that is still open; and so it does in each outer
      block. */
  lemma {:induction false} RunBinds(ops: seq<Op>, name: string, closed: nat)
    requires closed <= Open(ops)
    ensures Innermost(Outer(ops, closed), name) == LastAdded(ops, name, closed)
    decreases |ops|
  {
    hide Run, Outer, Innermost;
    if ops == [] {
      NothingYet(name);
    } else {
      var init := ops[..|ops| - 1];
      OuterStep(ops, closed);
      match ops[|ops| - 1]
      case Push =>
        RunBinds(init, name, if closed > 0 then closed - 1 else 0);
        BlankFrame(init, name);
      case Pop => RunBinds(init, name, if Open(init) > 0 then closed + 1 else closed);
      case Add(n, value) =>
        RunBinds(init, name, closed);
        if closed == 0 { OuterAll(init); AddBinds(Run([map[]], init), n, value, name); }
    }
  }

  lemma NothingYet(name: string)
    ensures Innermost(Outer([], 0), name) == Missing
  {
    assert Outer([], 0) == [map[]];
  }

  lemma OuterAll(ops: seq<Op>)
    ensures Outer(ops, 0) == Run([map[]], ops)
  {
    RunLength(ops);
  }

  lemma BlankFrame(ops: seq<Op>, name: string)
    ensures Innermost(Run([map[]], ops) + [map[]], name) == Innermost(Outer(ops, 0), name)
  {
    var frames := Run([map[]], ops);
    OuterAll(ops);
    assert (frames + [map[]])[..|frames|] == frames;
  }

  // ---- the objects ----

  class Symbol {
    const name: string
    var value: TypedValue
    ghost const home: Scope

    constructor (name: string, value: TypedValue, ghost home: Scope)
      ensures this.name == name && this.value == value && this.home == home
    {
      this.name, this.value, this.home := name, value, home;
    }
  }

  class Scope {
    var symbols: map<string, Symbol>
    const parent: Scope?

    constructor (parent: Scope?)
      ensures this.parent == parent && symbols == map[]
    {
      this.parent, symbols := parent, map[];
    }

    /** Each symbol knows the name it stands under and the one scope it lives in. */
    ghost predicate Tidy()
      reads this
    {
      forall n | n in symbols :: symbols[n].name == n && symbols[n].home == this
    }

    ghost function Symbols(): set<Symbol>
      reads this
    {
      set n | n in symbols :: symbols[n]
    }

    ghost predicate Binds(frame: Frame)
      reads this, Symbols()
    {
      frame.Keys == symbols.Keys && forall n | n in symbols :: frame[n] == symbols[n].value
    }

    /** A name that the scope has keeps its symbol, whose value is replaced; otherwise a new symbol enters. */
    method Add(name: string, value: TypedValue, ghost frame: Frame, ghost others: seq<Scope>, ghost frames: seq<Frame>)
      requires Tidy() && Binds(frame) && |others| == |frames|
      requires forall i | 0 <= i < |others| :: others[i] != this && others[i].Tidy() && others[i].Binds(frames[i])
      modifies this, Symbols()
      ensures Tidy() && Binds(frame[name := value])
      ensures name in old(symbols) ==> symbols == old(symbols)
      ensures name !in old(symbols) ==> name in symbols && fresh(symbols[name]) && symbols == old(symbols)[name := symbols[name]]
      ensures forall n | n in old(symbols) && n != name :: symbols[n].value == old(symbols[n].value)
      ensures fresh(Symbols() - old(Symbols()))
      ensures forall i | 0 <= i < |others| :: others[i].Tidy() && others[i].Binds(frames[i])
      ensures forall i | 0 <= i < |others| :: others[i].Symbols() == old(others[i].Symbols())
    {
      if name in symbols {
        symbols[name].value := value;
      } else {
        var symbol := new Symbol(name, value, this);
        symbols := symbols[name := symbol];
      }
    }
  }

  /** The scopes on a path are linked to their parents and bind what the frames say. */
  ghost predicate Sound(path: seq<Scope>, frames: seq<Frame>, repr: set<object>)
    reads path, repr
  {
    && |frames| == |path| > 0
    && (forall i | 0 <= i < |path| :: path[i] in repr && path[i].Symbols() <= repr)
    && (forall i | 0 <= i < |path| :: path[i].Tidy() && path[i].Binds(frames[i]))
    && Parents(path)
  }

  /** The first scope has no parent; every other one has the scope before it. */
  ghost predicate Parents(path: seq<Scope>) {
    path != [] && path[0].parent == null && forall i {:trigger path[i].parent} | 0 < i < |path| :: path[i].parent == path[i - 1]
  }

  lemma SoundPush(path: seq<Scope>, frames: seq<Frame>, repr: set<object>, s: Scope)
    requires Sound(path, frames, repr) && s.symbols == map[] && s.parent == path[|path| - 1]
    ensures Sound(path + [s], frames + [map[]], repr + {s})
  {
  }

  lemma SoundPop(path: seq<Scope>, frames: seq<Frame>, repr: set<object>)
    requires Sound(path, frames, repr) && |path| > 1
    ensures Sound(path[..|path| - 1], frames[..|path| - 1], repr)
  {
  }

  lemma SoundTop(path: seq<Scope>, frames: seq<Frame>, repr: set<object>, frame: Frame)
    requires |frames| == |path| > 0
    requires Parents(path) && forall i | 0 <= i < |path| :: path[i] in repr
    requires forall i | 0 <= i < |path| - 1 :: path[i].Symbols() <= repr && path[i].Tidy() && path[i].Binds(frames[i])
    requires path[|path| - 1].Symbols() <= repr && path[|path| - 1].Tidy() && path[|path| - 1].Binds(frame)
    ensures Sound(path, frames[|path| - 1 := frame], repr)
  {
    var after := frames[|path| - 1 := frame];
    forall i | 0 <= i < |path| ensures path[i].Symbols() <= repr && path[i].Tidy() && path[i].Binds(after[i]) {
      if i < |path| - 1 { assert after[i] == frames[i]; }
    }
  }

  lemma SoundAt(path: seq<Scope>, frames: seq<Frame>, repr: set<object>, i: int)
    requires Sound(path, frames, repr) && 0 <= i < |path|
    ensures path[i].Tidy() && path[i].Binds(frames[i]) && path[i] in repr && path[i].Symbols() <= repr
    ensures path[i].parent == (if i > 0 then path[i - 1] else null) && |frames| == |path| && Parents(path)
  {
  }

  /** No element occurs twice in a sequence that is part of a set counted once. */
  lemma OccursOnce(s: seq<Scope>, rest: multiset<Scope>, all: set<Scope>, i: int, j: int)
    requires multiset(s) + rest == multiset(all) && 0 <= i < j < |s|
    ensures s[i] != s[j]
  {
    var x := s[i];
    assert s == s[..i] + [x] + (s[i + 1..j] + [s[j]] + s[j + 1..]);
    assert multiset(s) == multiset(s[..i]) + multiset{x} + (multiset(s[i + 1..j]) + multiset{s[j]} + multiset(s[j + 1..]));
    assert multiset(all)[x] <= 1;
  }

  /** Every scope ever created is on the path, deferred or freed: in one of these, and once. */
  ghost predicate Accounted(path: seq<Scope>, deferred: seq<Scope>, freed: seq<Scope>, created: set<Scope>) {
    multiset(path) + multiset(deferred) + multiset(freed) == multiset(created)
  }

  lemma AccountPush(path: seq<Scope>, deferred: seq<Scope>, freed: seq<Scope>, created: set<Scope>, s: Scope)
    requires Accounted(path, deferred, freed, created) && s !in created
    ensures Accounted(path + [s], deferred, freed, created + {s})
  {
    assert multiset(created + {s}) == multiset(created) + multiset{s};
  }

  lemma AccountPop(path: seq<Scope>, deferred: seq<Scope>, freed: seq<Scope>, created: set<Scope>)
    requires Accounted(path, deferred, freed, created) && path != []
    ensures Accounted(path[..|path| - 1], deferred + [path[|path| - 1]], freed, created)
  {
    assert path == path[..|path| - 1] + [path[|path| - 1]];
  }

  lemma AccountFree(path: seq<Scope>, deferred: seq<Scope>, freed: seq<Scope>, created: set<Scope>)
    requires Accounted(path, deferred, freed, created)
    ensures Accounted(path, [], freed + deferred, created)
  {
  }

  lemma AccountEnd(global: Scope, scopes: seq<Scope>, deferred: seq<Scope>, freed: seq<Scope>, created: set<Scope>)
    requires Accounted([global] + scopes, deferred, freed, created)
    ensures multiset(freed + scopes + deferred + [global]) == multiset(created)
  {
  }

  lemma AccountOnce(path: seq<Scope>, deferred: seq<Scope>, freed: seq<Scope>, created: set<Scope>)
    requires Accounted(path, deferred, freed, created)
    ensures forall i, j | 0 <= i < j < |path| :: path[i] != path[j]
  {
    forall i, j | 0 <= i < j < |path| ensures path[i] != path[j] {
      OccursOnce(path, multiset(deferred) + multiset(freed), created, i, j);
    }
  }

  lemma StepAdd(frames: seq<Frame>, name: string, value: TypedValue)
    requires frames != []
    ensures var top := |frames| - 1; Step(frames, Add(name, value)) == frames[top := frames[top][name := value]]
  {
  }

  /** Everything that has to hold after the innermost scope has been popped. */
  lemma Popped(global: Scope, scopes: seq<Scope>, frames: seq<Frame>, repr: set<object>, deferred: seq<Scope>, freed: seq<Scope>, created: set<Scope>)
    requires scopes != [] && Sound([global] + scopes, frames, repr) && Accounted([global] + scopes, deferred, freed, created)
    ensures frames != []
    ensures var rest, last := scopes[..|scopes| - 1], scopes[|scopes| - 1];
      && |Step(frames, Pop)| == |[global] + rest| && Sound([global] + rest, Step(frames, Pop), repr)
      && Accounted([global] + rest, deferred + [last], freed, created)
  {
    hide Parents, Scope.Tidy, Scope.Binds, Scope.Symbols;
    var path := [global] + scopes;
    assert path[..|path| - 1] == [global] + scopes[..|scopes| - 1];
    SoundPop(path, frames, repr);
    AccountPop(path, deferred, freed, created);
  }

  lemma Grown(s: seq<Scope>, i: int)
    requires 0 <= i < |s|
    ensures s[..i + 1] == s[..i] + [s[i]]
  {
  }

  class Context {
    const global: Scope
    var scopes: seq<Scope>
    var deferred: seq<Scope>
    ghost var freed: seq<Scope>
    ghost var created: set<Scope>
    /** What the scopes on the path bind, from the global one to the current one. */
    ghost var frames: seq<Frame>
    ghost var repr: set<object>

    ghost function Path(): seq<Scope>
      reads this
    {
      [global] + scopes
    }

    ghost predicate Valid()
      reads this, repr, Path()
    {
      this !in repr && |frames| == |Path()| && Sound(Path(), frames, repr) && Accounted(Path(), deferred, freed, created)
    }

    constructor ()
      ensures Valid() && frames == [map[]] && deferred == [] && freed == [] && created == {global}
      ensures fresh(repr)
    {
      global := new Scope(null);
      scopes, deferred, freed := [], [], [];
      new;
      created, frames, repr := {global}, [map[]], {global};
    }

    function Current(): (s: Scope)
      reads this
      ensures s == Path()[|Path()| - 1]
    {
      if scopes != [] then scopes[|scopes| - 1] else global
    }

    method PushScope() returns (s: Scope)
      requires Valid()
      modifies this
      ensures Valid() && fresh(s) && repr == old(repr) + {s} && scopes == old(scopes) + [s] && deferred == old(deferred) && freed == old(freed)
      ensures created == old(created) + {s} && frames == Step(old(frames), Push)
    {
      hide Accounted, Sound;
      ghost var path := Path();
      s := new Scope(Current());
      AccountPush(path, deferred, freed, created, s);
      SoundPush(path, frames, repr, s);
      scopes := scopes + [s];
      created, frames, repr := created + {s}, Step(frames, Push), repr + {s};
      assert Path() == path + [s];
    }

    /** The popped scope is kept for later; popping with no open scope does nothing. */
    method PopScope()
      requires Valid()
      modifies this`scopes, this`deferred, this`frames
      ensures Valid() && frames == Step(old(frames), Pop)
      ensures old(scopes) == [] ==> scopes == [] && deferred == old(deferred)
      ensures old(scopes) != [] ==> scopes == old(scopes[..|scopes| - 1]) && deferred == old(deferred) + [old(Current())]
    {
      if scopes == [] { return; }
      hide Accounted, Sound, Step;
      var popped := scopes[|scopes| - 1];
      scopes := scopes[..|scopes| - 1];
      deferred, frames := deferred + [popped], Step(frames, Pop);
      Popped(global, old(scopes), old(frames), repr, old(deferred), freed, created);
    }

    /** Adding to the current scope. A name it has already keeps its symbol. */
    method AddSymbol(name: string, value: TypedValue)
      requires Valid()
      modifies this`frames, this`repr, Current(), Current().Symbols()
      ensures Valid() && frames == Step(old(frames), Op.Add(name, value)) && fresh(repr - old(repr))
      ensures forall n | n in old(Current().symbols) :: n in Current().symbols && Current().symbols[n] == old(Current().symbols)[n]
    {
      hide Accounted, Sound, Parents, Scope.Tidy, Scope.Binds, Scope.Symbols, Step;
      var scope := Current();
      ghost var path, top := Path(), |frames| - 1;
      StepAdd(frames, name, value);
      AccountOnce(path, deferred, freed, created);
      forall i | 0 <= i < |path|
        ensures path[i].Tidy() && path[i].Binds(frames[i]) && path[i] in repr && path[i].Symbols() <= repr
      { SoundAt(path, frames, repr, i); }
      SoundAt(path, frames, repr, top);
      scope.Add(name, value, frames[top], path[..top], frames[..top]);
      repr := repr + scope.Symbols();
      assert forall i | 0 <= i < top :: path[i] == path[..top][i] && frames[i] == frames[..top][i];
      ghost var was := frames;
      frames := Step(frames, Op.Add(name, value));
      SoundTop(path, was, repr, was[top][name := value]);
    }

    /** The walk from the current scope to the global one finds the innermost binding. */
    method FindSymbol(name: string) returns (symbol: Symbol?)
      requires Valid()
      ensures symbol == null <==> Innermost(frames, name) == Missing
      ensures symbol != null ==> symbol.name == name && Innermost(frames, name) == Bound(symbol.value)
    {
      hide Accounted, Sound;
      var scope: Scope? := Current();
      ghost var path := Path();
      ghost var k := |path|;
      SoundAt(path, frames, repr, k - 1);
      assert frames[..k] == frames;
      while scope != null
        invariant 0 <= k <= |path| && scope == if k > 0 then path[k - 1] else null
        invariant Innermost(frames, name) == Innermost(frames[..k], name)
        decreases k
      {
        SoundAt(path, frames, repr, k - 1);
        assert frames[..k][..k - 1] == frames[..k - 1];
        if name in scope.symbols { return scope.symbols[name]; }
        scope := scope.parent;
        k := k - 1;
      }
      return null;
    }

    /** After code generation the popped scopes are freed. */
    method FreeDeferred()
      requires Valid()
      modifies this`deferred, this`freed
      ensures Valid() && frames == old(frames) && created == old(created)
      ensures deferred == [] && freed == old(freed) + old(deferred)
    {
      hide Accounted, Sound;
      var i := 0;
      while i < |deferred|
        invariant 0 <= i <= |deferred| && deferred == old(deferred)
        invariant freed == old(freed) + deferred[..i]
      {
        freed := freed + [deferred[i]];
        i := i + 1;
      }
      assert deferred[..i] == deferred;
      AccountFree(Path(), deferred, old(freed), created);
      deferred := [];
    }

    /** In the end every scope that was ever created has been freed, exactly once. */
    method Destroy()
      requires Valid()
      modifies this`freed
      ensures multiset(freed) == multiset(created)
    {
      hide Accounted, Sound, Parents, Step, Run, Innermost;
      var i := 0;
      while i < |scopes|
        invariant 0 <= i <= |scopes| && freed == old(freed) + scopes[..i]
      {
        freed := freed + [scopes[i]];
        Grown(scopes, i);
        i := i + 1;
      }
      assert scopes[..i] == scopes;
      i := 0;
      while i < |deferred|
        invariant 0 <= i <= |deferred| && freed == old(freed) + scopes + deferred[..i]
      {
        freed := freed + [deferred[i]];
        Grown(deferred, i);
        i := i + 1;
      }
      assert deferred[..i] == deferred;
      freed := freed + [global];
      assert freed == old(freed) + scopes + deferred + [global];
      AccountEnd(global, scopes, deferred, old(freed), created);
    }

    /** A whole run of pushes, additions and pops does to the objects what it does to the frames. */
    method Replay(ops: seq<Op>)
      requires Valid()
      modifies this, repr
      ensures frames != [] && old(frames) != []
      ensures Valid() && frames == Run(old(frames), ops) && fresh(repr - old(repr))
      ensures old(frames) == [map[]] ==> forall name :: Innermost(frames, name) == LastAdded(ops, name, 0)
    {
      hide Accounted, Sound, Step;
      var i := 0;
      while i < |ops|
        invariant 0 <= i <= |ops| && Valid() && frames == Run(old(frames), ops[..i])
        invariant fresh(repr - old(repr))
      {
        match ops[i] {
          case Push => var _ := PushScope();
          case Pop => PopScope();
          case Add(name, value) =>
            SoundAt(Path(), frames, repr, |frames| - 1);
            AddSymbol(name, value);
        }
        assert ops[..i + 1][..i] == ops[..i];
        i := i + 1;
      }
      assert ops[..i] == ops;
      if old(frames) == [map[]] {
        forall name ensures Innermost(frames, name) == LastAdded(ops, name, 0) {
          RunBinds(ops, name, 0);
          OuterAll(ops);
        }
      }
    }
  }
}
