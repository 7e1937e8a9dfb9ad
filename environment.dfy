/** The scoped environment of src/environment/environment.rs: a table from
    names to `i32` values with an optional parent that owns the enclosing
    scope. */
module Environments {
  import opened Results

  /** Rust's `i32`. */
  type Int32 = x: int | -0x8000_0000 <= x < 0x8000_0000

  /** The value of an environment: its own table and, when it has one, the
      parent it owns (`Option<Box<Environment>>`). A parent is moved into its
      child, so nothing else can change it afterwards. */
  datatype Scope = Scope(variables: map<string, Int32>, parent: Option<Scope>)
  {
    /** `get`: the local binding, else the parent's lookup. A value is found
        exactly for the names bound somewhere in the chain, and a local
        binding shadows every binding further up. */
    function Get(name: string): (r: Option<Int32>)
      ensures r.Some? <==> name in Names()
      ensures name in variables ==> r == Some(variables[name])
      decreases this
    {
      if name in variables then Some(variables[name])
      else
        match parent
        case None => None
        case Some(p) => p.Get(name)
    }

    /** What the parent chain alone says about `name`. */
    function ParentGet(name: string): Option<Int32>
    {
      match parent
      case None => None
      case Some(p) => p.Get(name)
    }

    /** The effect of `set` on the value of an environment. */
    function Set(name: string, value: Int32): Scope
    {
      this.(variables := variables[name := value])
    }

    /** The effect of `remove` on the value of an environment. */
    function Remove(name: string): Scope
    {
      this.(variables := variables - {name})
    }

    /** The tables of this scope and its ancestors, nearest first. */
    function Chain(): (c: seq<map<string, Int32>>)
      ensures c != [] && c[0] == variables
      decreases this
    {
      match parent
      case None => [variables]
      case Some(p) => [variables] + p.Chain()
    }

    /** Every name bound in this scope or one of its ancestors. */
    function Names(): set<string>
      decreases this
    {
      match parent
      case None => variables.Keys
      case Some(p) => variables.Keys + p.Names()
    }
  }

  /** The binding of `name` in the first table of `chain` that has one. */
  function Nearest(chain: seq<map<string, Int32>>, name: string): Option<Int32>
  {
    if chain == [] then None
    else if name in chain[0] then Some(chain[0][name])
    else Nearest(chain[1..], name)
  }

  /** `Environment`: the local table changes in place; the parent is fixed at
      construction. */
  class Environment {
    var variables: map<string, Int32>
    const parent: Option<Scope>

    /** `Environment::new`: no bindings and no parent. */
    constructor ()
      ensures variables == map[] && parent == None
      ensures forall name :: Get(name) == None
    {
      variables := map[];
      parent := None;
    }

    /** `Environment::new_with_parent`: no local bindings; `p` is moved in. */
    constructor WithParent(p: Environment)
      ensures variables == map[] && parent == Some(p.Value())
      ensures forall name :: Get(name) == p.Get(name)
    {
      variables := map[];
      parent := Some(p.Value());
    }

    /** The environment as a value. */
    function Value(): Scope
      reads this
    {
      Scope(variables, parent)
    }

    /** `get`: the local table first, then the parent chain. */
    function Get(name: string): (r: Option<Int32>)
      reads this
      ensures r.Some? <==> name in Value().Names()
      ensures name in variables ==> r == Some(variables[name])
      ensures name !in variables ==> r == Value().ParentGet(name)
    {
      Value().Get(name)
    }

    /** `set`: insert or overwrite in the local table only. */
    method Set(name: string, value: Int32)
      modifies this
      ensures Value() == old(Value()).Set(name, value)
      ensures Get(name) == Some(value)
      ensures forall other :: other != name ==> Get(other) == old(Get(other))
    {
      variables := variables[name := value];
    }

    /** `remove`: delete from the local table only; a binding it shadowed in
        the parent chain becomes visible again. */
    method Remove(name: string)
      modifies this
      ensures Value() == old(Value()).Remove(name)
      ensures Get(name) == Value().ParentGet(name)
      ensures forall other :: other != name ==> Get(other) == old(Get(other))
      ensures name !in old(variables) ==> variables == old(variables)
    {
      variables := variables - {name};
    }
  }

  // ---------------------------------------------------------------------------
  // Properties

  /** `get` finds the nearest binding along the chain of scopes. */
  lemma {:induction false} GetIsNearest(s: Scope, name: string)
    ensures s.Get(name) == Nearest(s.Chain(), name)
    decreases s
  {
    match s.parent {
      case None =>
        assert s.Chain()[1..] == [];
      case Some(p) =>
        GetIsNearest(p, name);
        assert s.Chain()[1..] == p.Chain();
    }
  }

  /** A child with no local bindings answers every lookup as its parent does. */
  lemma ChildSeesParent(p: Scope, name: string)
    ensures Scope(map[], Some(p)).Get(name) == p.Get(name)
  {
  }

  /** After `set(name, value)`, `name` yields `value`; every other name is as
      before, and the parent is untouched. */
  lemma GetAfterSet(s: Scope, name: string, value: Int32, other: string)
    ensures s.Set(name, value).Get(name) == Some(value)
    ensures other != name ==> s.Set(name, value).Get(other) == s.Get(other)
    ensures s.Set(name, value).parent == s.parent
  {
  }

  /** After `remove(name)`, `name` yields what the parent chain binds it to;
      every other name is as before, and the parent is untouched. */
  lemma GetAfterRemove(s: Scope, name: string, other: string)
    ensures s.Remove(name).Get(name) == s.ParentGet(name)
    ensures other != name ==> s.Remove(name).Get(other) == s.Get(other)
    ensures s.Remove(name).parent == s.parent
    ensures name !in s.variables ==> s.Remove(name) == s
  {
  }

  /** The scenario of src/main.rs: a child shadows `x`, inherits `y`, adds `z`,
      and the moved-in parent still holds its own `x`. */
  method ShadowingExample() returns (x: Option<Int32>, y: Option<Int32>, z: Option<Int32>, parentX: Option<Int32>)
    ensures x == Some(24) && y == Some(100) && z == Some(200)
    ensures parentX == Some(42)
  {
    var env := new Environment();
    env.Set("x", 42);
    env.Set("y", 100);
    var child := new Environment.WithParent(env);
    child.Set("x", 24);
    child.Set("z", 200);
    x := child.Get("x");
    y := child.Get("y");
    z := child.Get("z");
    parentX := child.Value().ParentGet("x");
  }

  /** Removing a local shadow reveals the ancestor's binding. */
  method RemoveRevealsExample() returns (before: Option<Int32>, after: Option<Int32>)
    ensures before == Some(24) && after == Some(42)
  {
    var env := new Environment();
    env.Set("x", 42);
    var child := new Environment.WithParent(env);
    child.Set("x", 24);
    before := child.Get("x");
    child.Remove("x");
    after := child.Get("x");
  }
}
