module PolyEnv {
  // The environment and the environment stack as the type checker keeps them: a table of sixteen slots filled in place,
  // and a stack whose copies are searched from the top.

  import opened Poly

  class Env {
    const slots: array<Entry>
    var count: nat

    ghost predicate Valid()
      reads this
    {
      slots.Length == MAX_ENTRIES && count <= MAX_ENTRIES
    }

    ghost function Contents(): (es: Entries)
      requires Valid()
      reads this, slots
    {
      slots[..count]
    }

    constructor ()
      ensures Valid() && Contents() == [] && fresh(slots)
    {
      slots := new Entry[MAX_ENTRIES](_ => Entry("", IntSlot(0)));
      count := 0;
    }

    /** Position of the entry of that name, or the number of entries. */
    method IndexOf(name: string) returns (i: nat)
      requires Valid()
      ensures i == Find(Contents(), name)
    {
      i := 0;
      while i < count
        invariant i <= count && Find(Contents(), name) == i + Find(Contents()[i..], name)
      {
        if slots[i].name == name {
          assert Contents()[i..][0] == slots[i];
          return;
        }
        assert Contents()[i..][1..] == Contents()[i + 1..];
        i := i + 1;
      }
    }

    method Add(e: Entry)
      requires Valid()
      modifies this, slots
      ensures Valid() && Contents() == Append(old(Contents()), e)
    {
      if count < MAX_ENTRIES {
        slots[count] := e;
        count := count + 1;
      }
    }

    method BindType(name: string, t: Type)
      requires Valid()
      modifies this, slots
      ensures Valid() && Contents() == Poly.BindType(old(Contents()), name, t)
    {
      var i := IndexOf(name);
      if i == count {
        Add(Entry(name, TypeSlot(Some(t))));
      } else if slots[i].binding == TypeSlot(None) {
        slots[i] := slots[i].(binding := TypeSlot(Some(t)));
      }
    }

    method Fill(i: nat, n: nat)
      requires Valid() && i < count
      modifies slots
      ensures Valid() && Contents() == FillInt(old(Contents()), i, n)
    {
      if slots[i].binding == IntSlot(0) && n > 0 {
        slots[i] := slots[i].(binding := IntSlot(n));
      }
    }

    method BindInt(name: string, n: nat)
      requires Valid()
      modifies this, slots
      ensures Valid() && Contents() == Poly.BindInt(old(Contents()), name, n)
    {
      var i := IndexOf(name);
      if i == count {
        Add(Entry(name, IntSlot(n)));
      } else {
        Fill(i, n);
      }
    }

    /** Match a pattern against a concrete type, binding the pattern's names. */
    method Unify(p: Pattern, t: Type) returns (any: bool)
      requires Valid()
      modifies this, slots
      ensures Valid() && (Contents(), any) == Poly.Unify(p, t, old(Contents()))
      decreases p, 0
    {
      any := false;
      match p
      case Basic(_) =>
      case Name(_) =>
      case Wrap(w, elem) =>
        if t.Of? && t.w == w {
          any := UnifyBelow(elem, t.elem);
        }
      case Sized(_, elem) =>
        if t.Array? || t.Vector? {
          any := UnifyElem(elem, if t.Array? then t.count else t.lanes, t.elem);
        }
      case NameSized(name, elem) =>
        if t.Array? || t.Vector? {
          var n := if t.Array? then t.count else t.lanes;
          var i := IndexOf(name);
          var here := i == count;
          BindInt(name, n);
          any := UnifyElem(elem, n, t.elem);
          any := any || here;
        }
      case Spec(name, pattern) =>
        any := Unify(pattern, t);
        if any {
          BindType(name, t);
        }
    }

    method UnifyBelow(p: Pattern, t: Type) returns (any: bool)
      requires Valid()
      modifies this, slots
      ensures Valid() && (Contents(), any) == Poly.UnifyBelow(p, t, old(Contents()))
      decreases p, 1
    {
      if p.Name? {
        BindType(p.name, t);
        any := true;
      } else {
        any := Unify(p, t);
      }
    }

    method UnifyElem(p: Pattern, n: nat, t: Type) returns (any: bool)
      requires Valid()
      modifies this, slots
      ensures Valid() && (Contents(), any) == Poly.UnifyElem(p, n, t, old(Contents()))
      decreases p, 1
    {
      if p.Name? {
        var i := IndexOf(p.name);
        if i < count {
          Fill(i, n);
          any := false;
        } else {
          BindType(p.name, t);
          any := true;
        }
      } else {
        any := Unify(p, t);
      }
    }

    method UnifyParam(p: Pattern, t: Type)
      requires Valid()
      modifies this, slots
      ensures Valid() && Contents() == Poly.UnifyParam(p, t, old(Contents()))
    {
      if p.Name? {
        var i := IndexOf(p.name);
        if i == count {
          Add(Entry(p.name, TypeSlot(Some(t))));
        }
      } else {
        var _ := Unify(p, t);
      }
    }
  }

  class Stack {
    var envs: seq<Entries>

    constructor ()
      ensures envs == []
    {
      envs := [];
    }

    /** Push a copy; later changes to the environment do not reach it. */
    method Push(e: Env)
      requires e.Valid()
      modifies this
      ensures envs == old(envs) + [e.Contents()]
    {
      envs := envs + [e.slots[..e.count]];
    }

    method PopTop()
      requires envs != []
      modifies this
      ensures envs == old(envs)[..|old(envs)| - 1]
    {
      envs := envs[..|envs| - 1];
    }

    /** From the top down, the first type slot of that name. */
    method LookupType(name: string) returns (t: Option<Type>)
      ensures t == StackType(envs, name)
    {
      var i := |envs|;
      assert envs[..i] == envs;
      while i > 0
        invariant i <= |envs| && StackType(envs[..i], name) == StackType(envs, name)
      {
        i := i - 1;
        assert envs[..i + 1][..i] == envs[..i];
        var es, j := envs[i], 0;
        while j < |es|
          invariant j <= |es| && Poly.LookupType(es[j..], name) == Poly.LookupType(es, name)
        {
          if es[j].name == name && es[j].binding.TypeSlot? {
            return es[j].binding.t;
          }
          assert es[j..][1..] == es[j + 1..];
          j := j + 1;
        }
      }
      t := None;
    }

    method LookupInt(name: string) returns (n: Option<int>)
      ensures n == StackInt(envs, name)
    {
      var i := |envs|;
      assert envs[..i] == envs;
      while i > 0
        invariant i <= |envs| && StackInt(envs[..i], name) == StackInt(envs, name)
      {
        i := i - 1;
        assert envs[..i + 1][..i] == envs[..i];
        var es, j := envs[i], 0;
        while j < |es|
          invariant j <= |es| && Poly.LookupInt(es[j..], name) == Poly.LookupInt(es, name)
        {
          if es[j].name == name && es[j].binding.IntSlot? {
            return Some(es[j].binding.n);
          }
          assert es[j..][1..] == es[j + 1..];
          j := j + 1;
        }
      }
      n := None;
    }

    /** Resolve a pattern under the stack. */
    method ResolveType(p: Pattern) returns (t: Option<Type>)
      ensures t == Resolve(p, envs)
    {
      match p
      case Basic(id) => t := Some(Base(id));
      case Name(name) => t := LookupType(name);
      case Wrap(w, elem) =>
        t := ResolveType(elem);
        if t.Some? { t := Some(Of(w, t.value)); }
      case Sized(n, elem) =>
        t := ResolveType(elem);
        if t.Some? { t := Some(Array(n, t.value)); }
      case NameSized(name, elem) =>
        var n := LookupInt(name);
        if n.Some? {
          t := ResolveType(elem);
        } else {
          t := LookupType(name);
        }
        if t.Some? { t := Some(Array(if n.Some? then n.value % SIZE_RANGE else 0, t.value)); }
      case Spec(name, _) => t := LookupType(name);
    }
  }

  /** A call's instantiation, in place: bind a parameter's pattern from the argument's type, push the environment,
      resolve the pattern, and pop. The pattern resolves to the argument's type and the stack is as before. */
  method Instantiate(p: Pattern, s: Subst, env: Env, stack: Stack) returns (t: Option<Type>)
    requires env.Valid() && NoSpec(p) && Consistent(s) && Covers(s, p) && Agrees(env.Contents(), s)
    requires KnownOf(env.Contents()).declared == {} && |NamesOf(env.Contents()) + Names(p)| <= MAX_ENTRIES
    modifies env, env.slots, stack
    ensures env.Valid() && t == Some(Apply(s, p)) && Agrees(env.Contents(), s) && stack.envs == old(stack.envs)
  {
    RoundTrip(p, s, env.Contents(), stack.envs);
    env.UnifyParam(p, Apply(s, p));
    stack.Push(env);
    t := stack.ResolveType(p);
    stack.PopTop();
  }
}
