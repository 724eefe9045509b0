module Poly {
  // Polymorphic type patterns: matching a pattern against a concrete type binds its names in an environment,
  // and resolving the pattern under that environment gives the type back.

  datatype Option<+T> = None | Some(value: T)

  datatype Wrapper = Pointer | Slice | Dynamic | MultiPointer

  /** Concrete types. Type constructors are hash-consed, so that equality of descriptors is equality of these terms. */
  datatype Type =
    | Base(id: nat)
    | Of(w: Wrapper, elem: Type)
    | Array(count: nat, elem: Type)
    | Vector(lanes: nat, elem: Type)

  datatype Pattern =
    | Basic(id: nat)
    | Name(name: string)                     // $T
    | Wrap(w: Wrapper, elem: Pattern)        // ^P, []P, [dynamic]P, [^]P
    | Sized(n: nat, elem: Pattern)           // [n]P
    | NameSized(name: string, elem: Pattern) // [$N]P
    | Spec(name: string, pattern: Pattern)   // $M/P

  /** A type slot may be declared before it is bound; an integer slot holding zero counts as unset. */
  datatype Binding = TypeSlot(t: Option<Type>) | IntSlot(n: int)

  datatype Entry = Entry(name: string, binding: Binding)

  type Entries = seq<Entry>

  const MAX_ENTRIES := 16

  // ---- binding ----

  /** Position of the first entry of that name, or the length. */
  function Find(es: Entries, name: string): (i: nat)
    ensures i <= |es| && (i < |es| ==> es[i].name == name)
    ensures forall j | 0 <= j < i :: es[j].name != name
  {
    if es == [] then 0 else if es[0].name == name then 0 else 1 + Find(es[1..], name)
  }

  predicate Has(es: Entries, name: string) { Find(es, name) < |es| }

  function Append(es: Entries, e: Entry): Entries {
    if |es| < MAX_ENTRIES then es + [e] else es
  }

  /** Fill a type slot that is still unbound, or add one; anything else of that name stays. */
  function BindType(es: Entries, name: string, t: Type): Entries {
    var i := Find(es, name);
    if i == |es| then Append(es, Entry(name, TypeSlot(Some(t))))
    else if es[i].binding == TypeSlot(None) then es[i := Entry(name, TypeSlot(Some(t)))]
    else es
  }

  /** Set an integer slot that is still zero. */
  function FillInt(es: Entries, i: nat, n: nat): Entries
    requires i < |es|
  {
    if es[i].binding == IntSlot(0) && n > 0 then es[i := es[i].(binding := IntSlot(n))] else es
  }

  function BindInt(es: Entries, name: string, n: nat): Entries {
    var i := Find(es, name);
    if i == |es| then Append(es, Entry(name, IntSlot(n))) else FillInt(es, i, n)
  }

  // ---- matching ----

  /** The element position below a pointer, slice, dynamic array or multi-pointer. */
  function UnifyBelow(p: Pattern, t: Type, es: Entries): (r: (Entries, bool))
    decreases p, 1
  {
    if p.Name? then (BindType(es, p.name, t), true) else Unify(p, t, es)
  }

  /** The element position of an array: a name that is in the environment already is left as it is. */
  function UnifyElem(p: Pattern, count: nat, t: Type, es: Entries): (r: (Entries, bool))
    decreases p, 1
  {
    if !p.Name? then Unify(p, t, es)
    else if Has(es, p.name) then (FillInt(es, Find(es, p.name), count), false)
    else (BindType(es, p.name, t), true)
  }

  /** Match a pattern below a type constructor or a specialization; the flag says whether a name was met. */
  function Unify(p: Pattern, t: Type, es: Entries): (r: (Entries, bool))
    decreases p, 0
  {
    match p
    case Basic(_) => (es, false)
    case Name(_) => (es, false)
    case Wrap(w, elem) => if t.Of? && t.w == w then UnifyBelow(elem, t.elem, es) else (es, false)
    case Sized(_, elem) =>
      if t.Array? then UnifyElem(elem, t.count, t.elem, es)
      else if t.Vector? then UnifyElem(elem, t.lanes, t.elem, es)
      else (es, false)
    case NameSized(name, elem) =>
      if t.Array? || t.Vector? then
        var n := if t.Array? then t.count else t.lanes;
        var (es1, any) := UnifyElem(elem, n, t.elem, BindInt(es, name, n));
        (es1, any || !Has(es, name))
      else (es, false)
    case Spec(name, pattern) =>
      var (es1, any) := Unify(pattern, t, es);
      if any then (BindType(es1, name, t), true) else (es1, false)
  }

  /** A parameter of that type: `x: $T` adds the name unless it is there. */
  function UnifyParam(p: Pattern, t: Type, es: Entries): Entries {
    if p.Name? then (if Has(es, p.name) then es else Append(es, Entry(p.name, TypeSlot(Some(t)))))
    else Unify(p, t, es).0
  }

  // ---- resolving ----

  function LookupType(es: Entries, name: string): Option<Entry> {
    if es == [] then None
    else if es[0].name == name && es[0].binding.TypeSlot? then Some(es[0])
    else LookupType(es[1..], name)
  }

  function LookupInt(es: Entries, name: string): Option<int> {
    if es == [] then None
    else if es[0].name == name && es[0].binding.IntSlot? then Some(es[0].binding.n)
    else LookupInt(es[1..], name)
  }

  /** The innermost environment that has a type slot of that name decides, even if the slot is unbound. */
  function StackType(stack: seq<Entries>, name: string): Option<Type> {
    if stack == [] then None
    else
      var top := LookupType(stack[|stack| - 1], name);
      if top.Some? then (if top.value.binding.TypeSlot? then top.value.binding.t else None)
      else StackType(stack[..|stack| - 1], name)
  }

  function StackInt(stack: seq<Entries>, name: string): Option<int> {
    if stack == [] then None
    else
      var top := LookupInt(stack[|stack| - 1], name);
      if top.Some? then top else StackInt(stack[..|stack| - 1], name)
  }

  const SIZE_RANGE := 0x1_0000_0000_0000_0000  // array sizes are unsigned words

  function Resolve(p: Pattern, stack: seq<Entries>): Option<Type> {
    match p
    case Basic(id) => Some(Base(id))
    case Name(name) => StackType(stack, name)
    case Wrap(w, elem) =>
      var e := Resolve(elem, stack);
      if e.Some? then Some(Of(w, e.value)) else None
    case Sized(n, elem) =>
      var e := Resolve(elem, stack);
      if e.Some? then Some(Array(n, e.value)) else None
    case NameSized(name, elem) =>
      var n := StackInt(stack, name);
      // a size name without an integer binding is taken for the element type
      var e := if n.Some? then Resolve(elem, stack) else StackType(stack, name);
      if e.Some? then Some(Array(if n.Some? then n.value % SIZE_RANGE else 0, e.value)) else None
    case Spec(name, _) => StackType(stack, name)
  }

  // ---- substitutions ----

  datatype Subst = Subst(types: map<string, Type>, ints: map<string, nat>)

  /** No name stands for a type and for a size, and sizes are words. */
  predicate Consistent(s: Subst) {
    s.types.Keys !! s.ints.Keys && forall n | n in s.ints :: s.ints[n] < SIZE_RANGE
  }

  predicate Covers(s: Subst, p: Pattern) {
    match p
    case Basic(_) => true
    case Name(name) => name in s.types
    case Wrap(_, elem) => Covers(s, elem)
    case Sized(_, elem) => Covers(s, elem)
    case NameSized(name, elem) => name in s.ints && Covers(s, elem)
    case Spec(name, pattern) => Covers(s, pattern) && name in s.types && s.types[name] == Apply(s, pattern)
  }

  /** The concrete type a pattern stands for. */
  function Apply(s: Subst, p: Pattern): Type {
    match p
    case Basic(id) => Base(id)
    case Name(name) => if name in s.types then s.types[name] else Base(0)
    case Wrap(w, elem) => Of(w, Apply(s, elem))
    case Sized(n, elem) => Array(n, Apply(s, elem))
    case NameSized(name, elem) => Array(if name in s.ints then s.ints[name] else 0, Apply(s, elem))
    case Spec(_, pattern) => Apply(s, pattern)
  }

  function Count(t: Type): nat { if t.Array? then t.count else if t.Vector? then t.lanes else 0 }

  predicate Counted(t: Type) { t.Array? || t.Vector? }

  /** The type has the pattern's constructors, and gives its names what the substitution says. A written size is not
      compared, and a vector of lanes will do for an array. */
  predicate Gives(s: Subst, p: Pattern, t: Type) {
    match p
    case Basic(_) => true
    case Name(name) => name in s.types && s.types[name] == t
    case Wrap(w, elem) => t.Of? && t.w == w && Gives(s, elem, t.elem)
    case Sized(_, elem) => Counted(t) && Gives(s, elem, t.elem)
    case NameSized(name, elem) => Counted(t) && name in s.ints && s.ints[name] == Count(t) && Gives(s, elem, t.elem)
    case Spec(name, pattern) => Gives(s, pattern, t) && (Names(pattern) != {} ==> name in s.types && s.types[name] == t)
  }

  lemma {:induction false} CoversGives(s: Subst, p: Pattern)
    requires Covers(s, p)
    ensures Gives(s, p, Apply(s, p))
  {
    match p
    case Basic(_) =>
    case Name(_) =>
    case Wrap(_, elem) => CoversGives(s, elem);
    case Sized(_, elem) => CoversGives(s, elem);
    case NameSized(_, elem) => CoversGives(s, elem);
    case Spec(_, pattern) => CoversGives(s, pattern);
  }

  /** Every slot holds what the substitution says, or is a declared type slot. */
  ghost predicate Agrees(es: Entries, s: Subst) {
    && (forall i | 0 <= i < |es| :: EntryAgrees(es[i], s))
    && (forall i, j | 0 <= i < j < |es| :: es[i].name != es[j].name)
  }

  predicate EntryAgrees(e: Entry, s: Subst) {
    match e.binding
    case TypeSlot(t) => e.name in s.types && (t == None || t == Some(s.types[e.name]))
    case IntSlot(n) => e.name in s.ints && n == s.ints[e.name]
  }

  /** Which names have a value, and which are only declared. */
  datatype Known = Known(bound: set<string>, declared: set<string>)

  function KnownOf(es: Entries): Known {
    Known(set i | 0 <= i < |es| && es[i].binding != TypeSlot(None) :: es[i].name,
          set i | 0 <= i < |es| && es[i].binding == TypeSlot(None) :: es[i].name)
  }

  function Bind(k: Known, name: string): Known { Known(k.bound + {name}, k.declared - {name}) }

  function Names(p: Pattern): set<string> {
    match p
    case Basic(_) => {}
    case Name(name) => {name}
    case Wrap(_, elem) => Names(elem)
    case Sized(_, elem) => Names(elem)
    case NameSized(name, elem) => {name} + Names(elem)
    case Spec(name, pattern) => {name} + Names(pattern)
  }

  // ---- which names a match binds, read off the pattern alone ----

  /** What is known after matching, given what was known before; and whether the match reports a name. */
  function After(p: Pattern, k: Known): Known
    decreases p, 0
  {
    match p
    case Basic(_) => k
    case Name(_) => k
    case Wrap(_, elem) => if elem.Name? then Bind(k, elem.name) else After(elem, k)
    case Sized(_, elem) => ElemAfter(elem, k)
    case NameSized(name, elem) => ElemAfter(elem, Bind(k, name))
    case Spec(name, pattern) => if Reports(pattern, k) then Bind(After(pattern, k), name) else After(pattern, k)
  }

  function ElemAfter(p: Pattern, k: Known): Known
    decreases p, 1
  {
    if !p.Name? then After(p, k) else if p.name in k.bound + k.declared then k else Bind(k, p.name)
  }

  predicate Reports(p: Pattern, k: Known)
    decreases p, 0
  {
    match p
    case Basic(_) => false
    case Name(_) => false
    case Wrap(_, elem) => elem.Name? || Reports(elem, k)
    case Sized(_, elem) => ElemReports(elem, k)
    case NameSized(name, elem) => name !in k.bound || ElemReports(elem, Bind(k, name))
    case Spec(_, pattern) => Reports(pattern, k)
  }

  predicate ElemReports(p: Pattern, k: Known)
    decreases p, 1
  {
    if p.Name? then p.name !in k.bound + k.declared else Reports(p, k)
  }

  function ParamAfter(p: Pattern, k: Known): Known {
    if !p.Name? then After(p, k) else if p.name in k.bound + k.declared then k else Bind(k, p.name)
  }

  /** The names resolving looks at are bound. A specialization is resolved by its own name, not by its pattern. */
  predicate Resolvable(p: Pattern, bound: set<string>) {
    match p
    case Basic(_) => true
    case Name(name) => name in bound
    case Wrap(_, elem) => Resolvable(elem, bound)
    case Sized(_, elem) => Resolvable(elem, bound)
    case NameSized(name, elem) => name in bound && Resolvable(elem, bound)
    case Spec(name, _) => name in bound
  }

  // ---- environments that agree with a substitution ----

  function NamesOf(es: Entries): set<string> { set i | 0 <= i < |es| :: es[i].name }

  lemma {:induction false} CountNames(es: Entries)
    requires forall i, j | 0 <= i < j < |es| :: es[i].name != es[j].name
    ensures |NamesOf(es)| == |es|
  {
    if es != [] {
      var init, last := es[..|es| - 1], es[|es| - 1].name;
      CountNames(init);
      assert NamesOf(es) == NamesOf(init) + {last} by {
        forall i | 0 <= i < |es| ensures es[i].name in NamesOf(init) + {last} { if i < |es| - 1 { assert init[i] == es[i]; } }
        forall n | n in NamesOf(init) ensures n in NamesOf(es) { var i :| 0 <= i < |init| && init[i].name == n; assert es[i].name == n; }
      }
      assert last !in NamesOf(init);
    }
  }

  /** The entry found is the only one of its name. */
  lemma FoundKnown(es: Entries, s: Subst, name: string)
    requires Agrees(es, s)
    ensures var i, k := Find(es, name), KnownOf(es);
      && (name in NamesOf(es) <==> i < |es|)
      && (name in k.bound <==> i < |es| && es[i].binding != TypeSlot(None))
      && (name in k.declared <==> i < |es| && es[i].binding == TypeSlot(None))
      && NamesOf(es) == k.bound + k.declared
  {
    var i, k := Find(es, name), KnownOf(es);
    forall n | n in NamesOf(es) ensures n in k.bound + k.declared {
      var j :| 0 <= j < |es| && es[j].name == n;
      if es[j].binding == TypeSlot(None) { assert n in k.declared; } else { assert n in k.bound; }
    }
    if name in k.bound { var j :| 0 <= j < |es| && es[j].binding != TypeSlot(None) && es[j].name == name; assert j == i; }
    if name in k.declared { var j :| 0 <= j < |es| && es[j].binding == TypeSlot(None) && es[j].name == name; assert j == i; }
    if i < |es| { assert es[i].name in NamesOf(es); }
  }

  lemma KnownAppend(es: Entries, e: Entry)
    requires e.binding != TypeSlot(None) && !Has(es, e.name)
    ensures KnownOf(es + [e]) == Bind(KnownOf(es), e.name) && NamesOf(es + [e]) == NamesOf(es) + {e.name}
  {
    var es' := es + [e];
    var k, k' := KnownOf(es), KnownOf(es');
    assert es'[|es|] == e && forall i | 0 <= i < |es| :: es'[i] == es[i];
    forall n | n in k.bound + {e.name} ensures n in k'.bound {
      if n != e.name { var i :| 0 <= i < |es| && es[i].binding != TypeSlot(None) && es[i].name == n; assert es'[i].name == n; }
    }
    forall n | n in k.declared ensures n in k'.declared && n != e.name {
      var i :| 0 <= i < |es| && es[i].binding == TypeSlot(None) && es[i].name == n; assert es'[i].name == n;
    }
    assert k'.bound == k.bound + {e.name} && k'.declared == k.declared;
    forall n | n in NamesOf(es) + {e.name} ensures n in NamesOf(es') {
      if n != e.name { var i :| 0 <= i < |es| && es[i].name == n; assert es'[i].name == n; }
    }
  }

  /** Adding an entry for a new name. */
  lemma AppendAgrees(es: Entries, s: Subst, e: Entry, u: set<string>)
    requires Agrees(es, s) && EntryAgrees(e, s) && e.binding != TypeSlot(None) && !Has(es, e.name)
    requires NamesOf(es) <= u && e.name in u && |u| <= MAX_ENTRIES
    ensures Agrees(Append(es, e), s) && KnownOf(Append(es, e)) == Bind(KnownOf(es), e.name) && NamesOf(Append(es, e)) <= u
  {
    hide EntryAgrees, KnownOf, NamesOf, Agrees;
    FoundKnown(es, s, e.name);
    AgreesCount(es, s);
    Subsets(NamesOf(es) + {e.name}, u);
    assert Append(es, e) == es + [e];
    KnownAppend(es, e);
    AgreesMore(es, s, e);
  }

  lemma AgreesCount(es: Entries, s: Subst)
    requires Agrees(es, s)
    ensures |NamesOf(es)| == |es|
  {
    CountNames(es);
  }

  lemma AgreesMore(es: Entries, s: Subst, e: Entry)
    requires Agrees(es, s) && EntryAgrees(e, s) && !Has(es, e.name)
    ensures Agrees(es + [e], s)
  {
    hide EntryAgrees;
  }

  lemma Subsets(a: set<string>, b: set<string>)
    requires a <= b
    ensures |a| <= |b|
  {
    assert b == a + (b - a);
    assert |b| == |a| + |b - a|;
  }

  /** Filling a declared slot. */
  lemma FillAgrees(es: Entries, s: Subst, name: string, t: Type)
    requires Agrees(es, s) && name in s.types && s.types[name] == t && Has(es, name) && es[Find(es, name)].binding == TypeSlot(None)
    ensures var es' := es[Find(es, name) := Entry(name, TypeSlot(Some(t)))];
      Agrees(es', s) && KnownOf(es') == Bind(KnownOf(es), name) && NamesOf(es') == NamesOf(es)
  {
    var i := Find(es, name);
    var e := Entry(name, TypeSlot(Some(t)));
    var es' := es[i := e];
    var k, k' := KnownOf(es), KnownOf(es');
    assert forall j | 0 <= j < |es| :: es'[j].name == es[j].name;
    assert NamesOf(es') == NamesOf(es);
    forall n | n in k.bound + {name} ensures n in k'.bound {
      if n == name { assert es'[i] == e; } else { var j :| 0 <= j < |es| && es[j].binding != TypeSlot(None) && es[j].name == n; assert es'[j] == es[j]; }
    }
    forall n | n in k.declared && n != name ensures n in k'.declared {
      var j :| 0 <= j < |es| && es[j].binding == TypeSlot(None) && es[j].name == n; assert es'[j] == es[j];
    }
    forall n | n in k'.declared ensures n in k.declared && n != name {
      var j :| 0 <= j < |es'| && es'[j].binding == TypeSlot(None) && es'[j].name == n; assert j != i && es'[j] == es[j];
    }
    assert k'.bound == k.bound + {name} && k'.declared == k.declared - {name};
  }

  lemma BindTypeAgrees(es: Entries, s: Subst, name: string, u: set<string>)
    requires Agrees(es, s) && Consistent(s) && name in s.types && NamesOf(es) <= u && name in u && |u| <= MAX_ENTRIES
    ensures var es' := BindType(es, name, s.types[name]);
      Agrees(es', s) && KnownOf(es') == Bind(KnownOf(es), name) && NamesOf(es') <= u
  {
    FoundKnown(es, s, name);
    var i, t := Find(es, name), s.types[name];
    if i == |es| {
      AppendAgrees(es, s, Entry(name, TypeSlot(Some(t))), u);
    } else if es[i].binding == TypeSlot(None) {
      FillAgrees(es, s, name, t);
    }
  }

  lemma BindIntAgrees(es: Entries, s: Subst, name: string, u: set<string>)
    requires Agrees(es, s) && Consistent(s) && name in s.ints && NamesOf(es) <= u && name in u && |u| <= MAX_ENTRIES
    ensures var es' := BindInt(es, name, s.ints[name]);
      Agrees(es', s) && KnownOf(es') == Bind(KnownOf(es), name) && NamesOf(es') <= u
    ensures Has(es, name) <==> name in KnownOf(es).bound
  {
    FoundKnown(es, s, name);
    var i := Find(es, name);
    if i == |es| {
      AppendAgrees(es, s, Entry(name, IntSlot(s.ints[name])), u);
    } else {
      assert EntryAgrees(es[i], s);
      assert es[i].binding == IntSlot(s.ints[name]);
    }
  }

  // ---- matching binds the substitution ----

  /** The state of a match against the type the substitution gives. */
  ghost predicate Matched(es: Entries, any: bool, s: Subst, k: Known, reports: bool, u: set<string>) {
    Agrees(es, s) && KnownOf(es) == k && any == reports && NamesOf(es) <= u
  }

  ghost predicate Matching(p: Pattern, t: Type, s: Subst, es: Entries, u: set<string>) {
    Consistent(s) && Gives(s, p, t) && Agrees(es, s) && NamesOf(es) + Names(p) <= u && |u| <= MAX_ENTRIES
  }

  lemma {:induction false} ReportsNames(p: Pattern, k: Known)
    requires Reports(p, k)
    ensures Names(p) != {}
  {
    match p
    case Basic(_) =>
    case Name(_) =>
    case Wrap(_, elem) => if !elem.Name? { ReportsNames(elem, k); }
    case Sized(_, elem) => if !elem.Name? { ReportsNames(elem, k); }
    case NameSized(_, _) =>
    case Spec(_, _) =>
  }

  /** Matching against a type that gives the names their values. */
  lemma {:induction false} UnifyBinds(p: Pattern, t: Type, s: Subst, es: Entries, u: set<string>)
    requires Matching(p, t, s, es, u)
    ensures var (es', any) := Unify(p, t, es);
      Matched(es', any, s, After(p, KnownOf(es)), Reports(p, KnownOf(es)), u)
    decreases p, 0
  {
    hide Agrees, Consistent, KnownOf, BindType, BindInt, NamesOf;
    match p
    case Basic(_) =>
    case Name(_) =>
    case Wrap(_, elem) =>
      assert Names(elem) <= u && Gives(s, elem, t.elem);
      if elem.Name? {
        BindTypeAgrees(es, s, elem.name, u);
      } else {
        UnifyBinds(elem, t.elem, s, es, u);
      }
    case Sized(_, elem) => ElemBinds(elem, Count(t), t.elem, s, es, u);
    case NameSized(name, elem) =>
      BindIntAgrees(es, s, name, u);
      ElemBinds(elem, s.ints[name], t.elem, s, BindInt(es, name, s.ints[name]), u);
    case Spec(name, pattern) =>
      UnifyBinds(pattern, t, s, es, u);
      var (es1, any) := Unify(pattern, t, es);
      if any {
        ReportsNames(pattern, KnownOf(es));
        BindTypeAgrees(es1, s, name, u);
      }
  }

  lemma {:induction false} ElemBinds(p: Pattern, count: nat, t: Type, s: Subst, es: Entries, u: set<string>)
    requires Matching(p, t, s, es, u)
    ensures var (es', any) := UnifyElem(p, count, t, es);
      Matched(es', any, s, ElemAfter(p, KnownOf(es)), ElemReports(p, KnownOf(es)), u)
    decreases p, 1
  {
    if !p.Name? {
      UnifyBinds(p, t, s, es, u);
    } else {
      FoundKnown(es, s, p.name);
      if Has(es, p.name) {
        assert EntryAgrees(es[Find(es, p.name)], s);
      } else {
        BindTypeAgrees(es, s, p.name, u);
      }
    }
  }

  // ---- types of another shape ----

  /** The type has the pattern's constructors, level by level, down to the first name. */
  predicate SameShape(p: Pattern, t: Type) {
    match p
    case Basic(_) => true
    case Name(_) => true
    case Wrap(w, elem) => t.Of? && t.w == w && SameShape(elem, t.elem)
    case Sized(_, elem) => (t.Array? || t.Vector?) && SameShape(elem, t.elem)
    case NameSized(_, _) => t.Array? || t.Vector?
    case Spec(_, pattern) => SameShape(pattern, t)
  }

  /** A type that differs before the first name binds nothing and reports nothing, whatever is known. */
  lemma {:induction false} OtherShape(p: Pattern, t: Type, es: Entries)
    requires !SameShape(p, t)
    ensures Unify(p, t, es) == (es, false) && UnifyParam(p, t, es) == es
    decreases p
  {
    match p
    case Wrap(w, elem) => if t.Of? && t.w == w { OtherShape(elem, t.elem, es); }
    case Sized(_, elem) => if t.Array? || t.Vector? { OtherShape(elem, t.elem, es); }
    case NameSized(_, _) =>
    case Spec(_, pattern) => OtherShape(pattern, t, es);
  }

  /** The part of a pattern above the first constructor that the type does not have. */
  function Shared(p: Pattern, t: Type): Pattern {
    match p
    case Basic(_) => p
    case Name(_) => p
    case Wrap(w, elem) => if t.Of? && t.w == w then Wrap(w, Shared(elem, t.elem)) else Basic(0)
    case Sized(n, elem) => if t.Array? || t.Vector? then Sized(n, Shared(elem, t.elem)) else Basic(0)
    case NameSized(name, elem) => if t.Array? || t.Vector? then NameSized(name, Shared(elem, t.elem)) else Basic(0)
    case Spec(name, pattern) => Spec(name, Shared(pattern, t))
  }

  lemma {:induction false} UnifyShared(p: Pattern, t: Type, es: Entries)
    ensures Unify(p, t, es) == Unify(Shared(p, t), t, es)
    decreases p
  {
    hide BindType, BindInt, FillInt, Has, Find;
    match p
    case Basic(_) =>
    case Name(_) =>
    case Wrap(w, elem) => if t.Of? && t.w == w { UnifyShared(elem, t.elem, es); SharedName(elem, t.elem); }
    case Sized(_, elem) => if t.Array? || t.Vector? { UnifyShared(elem, t.elem, es); SharedName(elem, t.elem); }
    case NameSized(name, elem) =>
      if t.Array? || t.Vector? { UnifyShared(elem, t.elem, BindInt(es, name, Count(t))); SharedName(elem, t.elem); }
    case Spec(_, pattern) => UnifyShared(pattern, t, es);
  }

  lemma SharedName(p: Pattern, t: Type)
    ensures Shared(p, t).Name? <==> p.Name?
    ensures p.Name? ==> Shared(p, t) == p
  {
  }

  /** Matching against any type binds the names of the shared part, as that part says, and no others. */
  lemma UnifyAnyType(p: Pattern, t: Type, s: Subst, es: Entries)
    requires Consistent(s) && Gives(s, Shared(p, t), t) && Agrees(es, s) && |NamesOf(es) + Names(p)| <= MAX_ENTRIES
    ensures var q := Shared(p, t); var (es', any) := Unify(p, t, es);
      Matched(es', any, s, After(q, KnownOf(es)), Reports(q, KnownOf(es)), NamesOf(es) + Names(p))
  {
    UnifyShared(p, t, es);
    SharedNames(p, t);
    UnifyBinds(Shared(p, t), t, s, es, NamesOf(es) + Names(p));
  }

  lemma {:induction false} SharedNames(p: Pattern, t: Type)
    ensures Names(Shared(p, t)) <= Names(p)
  {
    match p
    case Basic(_) =>
    case Name(_) =>
    case Wrap(w, elem) => if t.Of? && t.w == w { SharedNames(elem, t.elem); }
    case Sized(_, elem) => if t.Array? || t.Vector? { SharedNames(elem, t.elem); }
    case NameSized(_, elem) => if t.Array? || t.Vector? { SharedNames(elem, t.elem); }
    case Spec(_, pattern) => SharedNames(pattern, t);
  }

  // ---- what every match keeps ----

  /** Entries stay in their places under their names, and one that has a value keeps it; new ones follow. */
  ghost predicate Keeps(es: Entries, es': Entries, names: set<string>) {
    && |es| <= |es'| && (|es| < |es'| ==> |es'| <= MAX_ENTRIES)
    && (forall i | 0 <= i < |es| :: es'[i].name == es[i].name)
    && (forall i | 0 <= i < |es| && es[i].binding != TypeSlot(None) && es[i].binding != IntSlot(0) :: es'[i] == es[i])
    && (forall i | |es| <= i < |es'| :: es'[i].name in names && es'[i].name !in NamesOf(es))
  }

  lemma FindName(es: Entries, name: string)
    ensures Find(es, name) < |es| <==> name in NamesOf(es)
  {
    if Find(es, name) < |es| { assert es[Find(es, name)].name in NamesOf(es); }
  }

  lemma BindKeeps(es: Entries, name: string, t: Type, n: nat, i: nat)
    ensures Keeps(es, BindType(es, name, t), {name}) && Keeps(es, BindInt(es, name, n), {name})
    ensures i < |es| ==> Keeps(es, FillInt(es, i, n), {})
  {
    FindName(es, name);
  }

  lemma KeepsThen(es: Entries, es1: Entries, es2: Entries, a: set<string>, b: set<string>)
    requires Keeps(es, es1, a) && Keeps(es1, es2, b)
    ensures Keeps(es, es2, a + b)
  {
    forall i | |es| <= i < |es2| ensures es2[i].name in a + b && es2[i].name !in NamesOf(es) {
      if i < |es1| { assert es2[i].name == es1[i].name; }
      else {
        forall n | n in NamesOf(es) ensures n in NamesOf(es1) { var j :| 0 <= j < |es| && es[j].name == n; assert es1[j].name == n; }
      }
    }
  }

  lemma KeepsWider(es: Entries, es': Entries, a: set<string>, b: set<string>)
    requires Keeps(es, es', a) && a <= b
    ensures Keeps(es, es', b)
  {
  }

  /** Whatever pattern is matched against whatever type, no value that is known is changed, and only names of the pattern
      are added. */
  lemma {:induction false} UnifyKeeps(p: Pattern, t: Type, es: Entries)
    ensures Keeps(es, Unify(p, t, es).0, Names(p)) && Keeps(es, UnifyParam(p, t, es), Names(p))
    decreases p, 0
  {
    hide Keeps, BindType, BindInt, FillInt, Find;
    KeepsSelf(es, Names(p));
    match p
    case Basic(_) =>
    case Name(name) => AppendKeeps(es, Entry(name, TypeSlot(Some(t))));
    case Wrap(w, elem) =>
      if t.Of? && t.w == w { if elem.Name? { BindKeeps(es, elem.name, t.elem, 0, 0); } else { UnifyKeeps(elem, t.elem, es); } }
    case Sized(_, elem) => if Counted(t) { ElemKeeps(elem, Count(t), t.elem, es); }
    case NameSized(name, elem) =>
      if Counted(t) {
        var es1 := BindInt(es, name, Count(t));
        BindKeeps(es, name, t, Count(t), 0);
        ElemKeeps(elem, Count(t), t.elem, es1);
        KeepsThen(es, es1, UnifyElem(elem, Count(t), t.elem, es1).0, {name}, Names(elem));
      }
    case Spec(name, pattern) =>
      UnifyKeeps(pattern, t, es);
      var (es1, any) := Unify(pattern, t, es);
      KeepsWider(es, es1, Names(pattern), Names(p));
      if any {
        BindKeeps(es1, name, t, 0, 0);
        KeepsThen(es, es1, BindType(es1, name, t), Names(pattern), {name});
        assert Names(pattern) + {name} == Names(p);
      }
  }

  lemma AppendKeeps(es: Entries, e: Entry)
    ensures !Has(es, e.name) ==> Keeps(es, Append(es, e), {e.name})
  {
    FindName(es, e.name);
  }

  lemma KeepsSelf(es: Entries, names: set<string>)
    ensures Keeps(es, es, names)
  {
  }

  lemma KeepsFresh(es: Entries, es': Entries, names: set<string>, name: string)
    requires Keeps(es, es', names) && name !in NamesOf(es) + names
    ensures name !in NamesOf(es')
  {
    forall i | 0 <= i < |es'| ensures es'[i].name != name {
      if i < |es| { assert es[i].name in NamesOf(es); }
    }
  }

  lemma {:induction false} ElemKeeps(p: Pattern, count: nat, t: Type, es: Entries)
    ensures Keeps(es, UnifyElem(p, count, t, es).0, Names(p))
    decreases p, 1
  {
    if !p.Name? {
      UnifyKeeps(p, t, es);
    } else {
      BindKeeps(es, p.name, t, count, Find(es, p.name));
    }
  }

  /** A positive count gets into the first slot of the size's name if there is none yet or it is an integer slot still at
      zero, whatever the element is. */
  lemma SizeBinds(name: string, elem: Pattern, t: Type, es: Entries)
    requires Counted(t) && Count(t) > 0
    ensures var es', i := Unify(NameSized(name, elem), t, es).0, Find(es, name);
      && |es| <= |es'|
      && (i < |es| && es[i].binding == IntSlot(0) ==> es'[i] == Entry(name, IntSlot(Count(t))))
      && (i == |es| < MAX_ENTRIES ==> i < |es'| && es'[i] == Entry(name, IntSlot(Count(t))))
  {
    var es1 := BindInt(es, name, Count(t));
    ElemKeeps(elem, Count(t), t.elem, es1);
  }

  // ---- specializations of any type ----

  lemma {:induction false} ReportsExactly(p: Pattern, t: Type, es: Entries)
    requires NoSpec(p) && Names(p) !! NamesOf(es) && !p.Name?
    ensures Unify(p, t, es).1 <==> SameShape(p, t) && Names(p) != {}
    decreases p
  {
    hide BindType, BindInt, FillInt, NamesOf;
    match p
    case Basic(_) =>
    case Wrap(w, elem) => if t.Of? && t.w == w && !elem.Name? { ReportsExactly(elem, t.elem, es); }
    case Sized(_, elem) => if Counted(t) { if elem.Name? { FindName(es, elem.name); } else { ReportsExactly(elem, t.elem, es); } }
    case NameSized(name, _) => FindName(es, name);
  }

  /** For a pattern with names of its own, `$M/P` binds M, to the whole type, exactly when the type has P's shape and P has
      a name below its outermost constructor. Otherwise nothing is bound. */
  lemma SpecBoundExactly(name: string, p: Pattern, t: Type, es: Entries)
    requires NoSpec(p) && Names(p) !! NamesOf(es) && name !in NamesOf(es) + Names(p)
    ensures var (es1, any), (es', _) := Unify(p, t, es), Unify(Spec(name, p), t, es);
      && (any <==> !p.Name? && SameShape(p, t) && Names(p) != {})
      && (any && |es1| < MAX_ENTRIES ==> es' == es1 + [Entry(name, TypeSlot(Some(t)))])
      && (!any ==> es' == es && name !in NamesOf(es'))
  {
    if !p.Name? { ReportsExactly(p, t, es); }
    UnifyKeeps(p, t, es);
    var (es1, any) := Unify(p, t, es);
    FindName(es1, name);
    KeepsFresh(es, es1, Names(p), name);
    if !SameShape(p, t) { OtherShape(p, t, es); } else if Names(p) == {} { NoNames(p, t, es); }
  }

  lemma {:induction false} NoNames(p: Pattern, t: Type, es: Entries)
    requires Names(p) == {}
    ensures Unify(p, t, es) == (es, false)
    decreases p
  {
    match p
    case Basic(_) =>
    case Wrap(w, elem) => if t.Of? && t.w == w { NoNames(elem, t.elem, es); }
    case Sized(_, elem) => if Counted(t) { NoNames(elem, t.elem, es); }
  }

  /** `[]$T` has nothing to do with a pointer. */
  lemma SliceOfPointer()
    ensures UnifyParam(Wrap(Slice, Name("T")), Of(Pointer, Base(0)), []) == []
    ensures UnifyParam(Spec("M", Wrap(Slice, Name("E"))), Of(Pointer, Base(0)), []) == []
  {
  }

  lemma ParamBinds(p: Pattern, t: Type, s: Subst, es: Entries, u: set<string>)
    requires Matching(p, t, s, es, u)
    ensures var es' := UnifyParam(p, t, es);
      Agrees(es', s) && KnownOf(es') == ParamAfter(p, KnownOf(es))
  {
    if p.Name? {
      FoundKnown(es, s, p.name);
      if !Has(es, p.name) { AppendAgrees(es, s, Entry(p.name, TypeSlot(Some(s.types[p.name]))), u); }
    } else {
      UnifyBinds(p, t, s, es, u);
    }
  }

  // ---- resolving under the resulting environment ----

  lemma {:induction false} LookupTypeFinds(es: Entries, name: string)
    ensures match LookupType(es, name)
      case Some(e) => e.name == name && e.binding.TypeSlot? && e in es
      case None => forall i | 0 <= i < |es| :: es[i].name == name ==> es[i].binding.IntSlot?
  {
    if es != [] && !(es[0].name == name && es[0].binding.TypeSlot?) {
      LookupTypeFinds(es[1..], name);
      if LookupType(es, name).None? {
        forall i | 0 <= i < |es| && es[i].name == name ensures es[i].binding.IntSlot? { if i > 0 { assert es[1..][i - 1] == es[i]; } }
      }
    }
  }

  lemma {:induction false} LookupIntFinds(es: Entries, name: string)
    ensures match LookupInt(es, name)
      case Some(n) => Entry(name, IntSlot(n)) in es
      case None => forall i | 0 <= i < |es| :: es[i].name == name ==> es[i].binding.TypeSlot?
  {
    if es != [] {
      if es[0].name == name && es[0].binding.IntSlot? {
        assert es[0] == Entry(name, IntSlot(es[0].binding.n));
      } else {
        LookupIntFinds(es[1..], name);
        if LookupInt(es, name).None? {
          forall i | 0 <= i < |es| && es[i].name == name ensures es[i].binding.TypeSlot? { if i > 0 { assert es[1..][i - 1] == es[i]; } }
        }
      }
    }
  }

  /** A bound type name resolves to its type, whatever lies below; on a fresh stack an unbound one does not resolve. */
  lemma TypeResolves(es: Entries, s: Subst, name: string, below: seq<Entries>)
    requires Agrees(es, s) && Consistent(s) && name in s.types
    ensures var stack := below + [es];
      && (name in KnownOf(es).bound ==> StackType(stack, name) == Some(s.types[name]))
      && (name !in KnownOf(es).bound && below == [] ==> StackType(stack, name) == None)
  {
    var stack := below + [es];
    assert stack[|stack| - 1] == es && stack[..|stack| - 1] == below;
    LookupTypeFinds(es, name);
    FoundKnown(es, s, name);
    var i := Find(es, name);
    if i < |es| {
      assert EntryAgrees(es[i], s);
      var e := LookupType(es, name).value;
      var j :| 0 <= j < |es| && es[j] == e;
      assert j == i;
    }
  }

  /** The innermost environment with a type slot of that name decides, by its first such slot, even an unbound one; the
      environments above, which have none, do not matter. */
  lemma {:induction false} InnermostSlot(stack: seq<Entries>, name: string, i: nat, k: nat)
    requires i < |stack| && k < |stack[i]| && IsSlot(stack[i][k], name, true)
    requires forall j | 0 <= j < k :: !IsSlot(stack[i][j], name, true)
    requires forall j, l | i < j < |stack| && 0 <= l < |stack[j]| :: !IsSlot(stack[j][l], name, true)
    ensures StackType(stack, name) == stack[i][k].binding.t
    decreases |stack|
  {
    var top := stack[|stack| - 1];
    if i == |stack| - 1 {
      FirstSlot(top, name, k);
    } else {
      NoSlot(top, name);
      InnermostSlot(stack[..|stack| - 1], name, i, k);
    }
  }

  /** And likewise for sizes. */
  lemma {:induction false} InnermostSize(stack: seq<Entries>, name: string, i: nat, k: nat)
    requires i < |stack| && k < |stack[i]| && IsSlot(stack[i][k], name, false)
    requires forall j | 0 <= j < k :: !IsSlot(stack[i][j], name, false)
    requires forall j, l | i < j < |stack| && 0 <= l < |stack[j]| :: !IsSlot(stack[j][l], name, false)
    ensures StackInt(stack, name) == Some(stack[i][k].binding.n)
    decreases |stack|
  {
    var top := stack[|stack| - 1];
    if i == |stack| - 1 {
      FirstSize(top, name, k);
    } else {
      NoSize(top, name);
      InnermostSize(stack[..|stack| - 1], name, i, k);
    }
  }

  /** A size name without an integer slot anywhere is taken for the element type, with size zero: `[$N]P` then resolves to
      an array of what N stands for, whatever P is. */
  lemma SizeWithoutInteger(name: string, elem: Pattern, stack: seq<Entries>)
    requires forall j, l | 0 <= j < |stack| && 0 <= l < |stack[j]| :: !IsSlot(stack[j][l], name, false)
    ensures Resolve(NameSized(name, elem), stack) == (match Resolve(Name(name), stack) case Some(t) => Some(Array(0, t)) case None => None)
  {
    NowhereBound(stack, name);
  }

  /** A name without a slot of its kind anywhere stands for nothing. */
  lemma {:induction false} NowhereBound(stack: seq<Entries>, name: string)
    ensures (forall j, l | 0 <= j < |stack| && 0 <= l < |stack[j]| :: !IsSlot(stack[j][l], name, true)) ==> StackType(stack, name) == None
    ensures (forall j, l | 0 <= j < |stack| && 0 <= l < |stack[j]| :: !IsSlot(stack[j][l], name, false)) ==> StackInt(stack, name) == None
    decreases |stack|
  {
    if stack != [] {
      var top, rest := stack[|stack| - 1], stack[..|stack| - 1];
      NowhereBound(rest, name);
      if forall l | 0 <= l < |top| :: !IsSlot(top[l], name, true) { NoSlot(top, name); }
      if forall l | 0 <= l < |top| :: !IsSlot(top[l], name, false) { NoSize(top, name); }
    }
  }

  predicate IsSlot(e: Entry, name: string, ofType: bool) { e.name == name && e.binding.TypeSlot? == ofType }

  lemma {:induction false} FirstSlot(es: Entries, name: string, k: nat)
    requires k < |es| && IsSlot(es[k], name, true) && forall j | 0 <= j < k :: !IsSlot(es[j], name, true)
    ensures LookupType(es, name) == Some(es[k])
    decreases k
  {
    if k > 0 { assert !IsSlot(es[0], name, true); FirstSlot(es[1..], name, k - 1); }
  }

  lemma {:induction false} FirstSize(es: Entries, name: string, k: nat)
    requires k < |es| && IsSlot(es[k], name, false) && forall j | 0 <= j < k :: !IsSlot(es[j], name, false)
    ensures LookupInt(es, name) == Some(es[k].binding.n)
    decreases k
  {
    if k > 0 { assert !IsSlot(es[0], name, false); FirstSize(es[1..], name, k - 1); }
  }

  lemma NoSlot(es: Entries, name: string)
    requires forall l | 0 <= l < |es| :: !IsSlot(es[l], name, true)
    ensures LookupType(es, name) == None
  {
    LookupTypeFinds(es, name);
  }

  lemma {:induction false} NoSize(es: Entries, name: string)
    requires forall l | 0 <= l < |es| :: !IsSlot(es[l], name, false)
    ensures LookupInt(es, name) == None
  {
    if es != [] {
      assert !IsSlot(es[0], name, false);
      NoSize(es[1..], name);
    }
  }

  lemma IntResolves(es: Entries, s: Subst, name: string, below: seq<Entries>)
    requires Agrees(es, s) && Consistent(s) && name in s.ints
    ensures var stack := below + [es];
      && (name in KnownOf(es).bound ==> StackInt(stack, name) == Some(s.ints[name]))
      && (name !in KnownOf(es).bound && below == [] ==> StackInt(stack, name) == None && StackType(stack, name) == None)
  {
    var stack := below + [es];
    assert stack[|stack| - 1] == es && stack[..|stack| - 1] == below;
    LookupIntFinds(es, name);
    LookupTypeFinds(es, name);
    FoundKnown(es, s, name);
    var i := Find(es, name);
    if i < |es| {
      assert EntryAgrees(es[i], s);
      var j :| 0 <= j < |es| && es[j] == Entry(name, IntSlot(LookupInt(es, name).value));
      assert j == i;
    }
  }

  lemma {:induction false} ResolveGives(p: Pattern, s: Subst, es: Entries, below: seq<Entries>)
    requires Agrees(es, s) && Consistent(s) && Covers(s, p)
    ensures Resolvable(p, KnownOf(es).bound) ==> Resolve(p, below + [es]) == Some(Apply(s, p))
    ensures !Resolvable(p, KnownOf(es).bound) && below == [] ==> Resolve(p, below + [es]) == None
  {
    hide Agrees, KnownOf, StackType, StackInt;
    match p
    case Basic(_) =>
    case Name(name) => TypeResolves(es, s, name, below);
    case Wrap(_, elem) => ResolveGives(elem, s, es, below);
    case Sized(_, elem) => ResolveGives(elem, s, es, below);
    case NameSized(name, elem) =>
      IntResolves(es, s, name, below);
      ResolveGives(elem, s, es, below);
    case Spec(name, pattern) => TypeResolves(es, s, name, below);
  }

  /** Matching a parameter's pattern against the type a substitution gives, and resolving the pattern under the
      environment so obtained, gives the type back exactly when the names resolving needs are bound, which can be told
      from the pattern and the names known before. */
  lemma UnifyThenResolve(p: Pattern, s: Subst, es: Entries, below: seq<Entries>)
    requires Consistent(s) && Covers(s, p) && Agrees(es, s) && |NamesOf(es) + Names(p)| <= MAX_ENTRIES
    ensures var t, es' := Apply(s, p), UnifyParam(p, Apply(s, p), es);
      var bound := ParamAfter(p, KnownOf(es)).bound;
      && Agrees(es', s) && KnownOf(es').bound == bound
      && (Resolvable(p, bound) ==> Resolve(p, below + [es']) == Some(t))
      && (below == [] ==> (Resolve(p, [es']) == Some(t) <==> Resolvable(p, bound)))
  {
    CoversGives(s, p);
    ParamBinds(p, Apply(s, p), s, es, NamesOf(es) + Names(p));
    var es' := UnifyParam(p, Apply(s, p), es);
    ResolveGives(p, s, es', below);
    assert [] + [es'] == [es'];
  }

  // ---- patterns for which that always works ----

  predicate NoSpec(p: Pattern) {
    match p
    case Basic(_) => true
    case Name(_) => true
    case Wrap(_, elem) => NoSpec(elem)
    case Sized(_, elem) => NoSpec(elem)
    case NameSized(_, elem) => NoSpec(elem)
    case Spec(_, _) => false
  }

  lemma {:induction false} AfterAll(p: Pattern, k: Known)
    requires NoSpec(p) && k.declared == {}
    ensures !p.Name? ==> After(p, k) == Known(k.bound + Names(p), {})
    ensures ElemAfter(p, k) == Known(k.bound + Names(p), {})
  {
    match p
    case Basic(_) => assert k.bound + {} == k.bound;
    case Name(name) => if name in k.bound { assert k.bound + {name} == k.bound; }
    case Wrap(_, elem) => AfterAll(elem, k);
    case Sized(_, elem) => AfterAll(elem, k);
    case NameSized(name, elem) =>
      AfterAll(elem, Bind(k, name));
      assert k.bound + {name} + Names(elem) == k.bound + ({name} + Names(elem));
  }

  lemma {:induction false} ResolvableAll(p: Pattern, bound: set<string>)
    requires Names(p) <= bound
    ensures Resolvable(p, bound)
  {
    match p
    case Basic(_) =>
    case Name(_) =>
    case Wrap(_, elem) => ResolvableAll(elem, bound);
    case Sized(_, elem) => ResolvableAll(elem, bound);
    case NameSized(_, elem) => ResolvableAll(elem, bound);
    case Spec(_, _) =>
  }

  /** Pointers, slices, dynamic arrays, multi-pointers and arrays in any nesting, names repeated or not: every name is
      bound to what the substitution says, nothing else is, and the pattern resolves to the type. */
  lemma RoundTrip(p: Pattern, s: Subst, es: Entries, below: seq<Entries>)
    requires NoSpec(p) && Consistent(s) && Covers(s, p) && Agrees(es, s) && KnownOf(es).declared == {}
    requires |NamesOf(es) + Names(p)| <= MAX_ENTRIES
    ensures var es' := UnifyParam(p, Apply(s, p), es);
      Agrees(es', s) && KnownOf(es').bound == KnownOf(es).bound + Names(p) && Resolve(p, below + [es']) == Some(Apply(s, p))
  {
    UnifyThenResolve(p, s, es, below);
    AfterAll(p, KnownOf(es));
    if p.Name? && p.name in KnownOf(es).bound { assert KnownOf(es).bound + {p.name} == KnownOf(es).bound; }
    ResolvableAll(p, KnownOf(es).bound + Names(p));
  }

  lemma {:induction false} ReportsFresh(p: Pattern, k: Known)
    requires NoSpec(p) && Names(p) !! k.bound + k.declared
    ensures !p.Name? ==> (Reports(p, k) <==> Names(p) != {})
  {
    match p
    case Basic(_) =>
    case Name(_) =>
    case Wrap(_, elem) => if !elem.Name? { ReportsFresh(elem, k); }
    case Sized(_, elem) => if !elem.Name? { ReportsFresh(elem, k); }
    case NameSized(_, _) =>
  }

  /** A specialization `$M/P` with names of its own is bound and resolved as a whole exactly when P contains a name
      below its outermost constructor: a pattern without names, like the one of `$M/[]int`, leaves $M unbound. */
  lemma SpecRoundTrip(name: string, p: Pattern, s: Subst)
    requires NoSpec(p) && Consistent(s) && Covers(s, Spec(name, p)) && name !in Names(p) && |Names(p)| < MAX_ENTRIES
    ensures var es := UnifyParam(Spec(name, p), Apply(s, p), []);
      Resolve(Spec(name, p), [es]) == Some(Apply(s, p)) <==> !p.Name? && Names(p) != {}
  {
    var k := KnownOf([]);
    assert k == Known({}, {});
    assert NamesOf([]) + Names(Spec(name, p)) == {name} + Names(p);
    UnifyThenResolve(Spec(name, p), s, [], []);
    ReportsFresh(p, k);
    var q := Spec(name, p);
    if p.Name? {
      assert !Reports(p, k) && After(p, k) == k;
    } else {
      AfterAll(p, k);
      assert Reports(p, k) ==> name in ParamAfter(q, k).bound;
      assert !Reports(p, k) ==> ParamAfter(q, k).bound == Names(p);
    }
  }

  /** A specialization whose pattern has no name is not bound. */
  lemma NamelessSpec()
    ensures var p := Spec("M", Wrap(Slice, Basic(0)));
      Resolve(p, [UnifyParam(p, Of(Slice, Base(0)), [])]) == None
  {
    assert UnifyParam(Spec("M", Wrap(Slice, Basic(0))), Of(Slice, Base(0)), []) == [];
    Unnamed([], "M");
  }

  lemma Unnamed(es: Entries, name: string)
    requires LookupType(es, name) == None
    ensures StackType([es], name) == None
  {
    assert [es][..0] == [];
  }

  /** Nor is one whose names all have values already, if they stand in an array: such names are not reported again. */
  lemma RepeatedSpec()
    ensures var es := [Entry("N", IntSlot(4)), Entry("E", TypeSlot(Some(Base(0))))];
      var p := Spec("M", NameSized("N", Name("E")));
      Resolve(p, [UnifyParam(p, Array(4, Base(0)), es)]) == None
  {
    var es := [Entry("N", IntSlot(4)), Entry("E", TypeSlot(Some(Base(0))))];
    assert es[1..] == [Entry("E", TypeSlot(Some(Base(0))))];
    assert Find(es, "N") == 0 && Find(es, "E") == 1;
    assert UnifyParam(Spec("M", NameSized("N", Name("E"))), Array(4, Base(0)), es) == es;
    assert LookupType(es[1..], "M") == None;
    Unnamed(es, "M");
  }

  /** An array does not fill a slot that was declared without a value. */
  lemma DeclaredInArray()
    ensures var es := [Entry("E", TypeSlot(None))];
      Resolve(Sized(4, Name("E")), [UnifyParam(Sized(4, Name("E")), Array(4, Base(0)), es)]) == None
  {
    assert Find([Entry("E", TypeSlot(None))], "E") == 0;
  }
}
