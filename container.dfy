/** The container itself: two mutable tables, updated in place by registration
    and read by resolution. */
module Injector {
  import opened Types
  import Resolution
  import Properties

  class Container {
    /** Recipes, by key. */
    var resolvables: map<Key, Resolvable>
    /** Cached permanent instances, by key. */
    var values: map<Key, Value>
    /** The identity the next constructed object receives. */
    var nextId: nat
    /** How many constructions may be nested on the call stack. */
    const stackDepth: nat

    ghost function Tables(): Resolution.Registry
      reads this
    {
      Resolution.Registry(resolvables, values)
    }

    ghost predicate Valid()
      reads this
    {
      Resolution.WellFormed(Tables())
    }

    constructor (stackDepth: nat)
      ensures Valid()
      ensures resolvables == map[] && values == map[] && nextId == 0
      ensures this.stackDepth == stackDepth
    {
      resolvables := map[];
      values := map[];
      nextId := 0;
      this.stackDepth := stackDepth;
    }

    /** Store the recipe under `key`, replacing any earlier one; for a permanent
        scope, then construct the instance and cache it. A failed construction
        leaves the recipe written and nothing cached. */
    method Register(key: Key, implementedBy: Implementation, lifetimeScope: LifetimeScope,
                    constructorParameters: Option<seq<Value>>) returns (outcome: Result<()>)
      requires Valid()
      modifies this
      ensures Valid()
      ensures resolvables == old(resolvables)[key := Resolution.RecipeOf(implementedBy, lifetimeScope, constructorParameters)]
      ensures Resolution.Update(Tables(), outcome, nextId)
           == Resolution.Register(old(Tables()), key, implementedBy, lifetimeScope,
                                  constructorParameters, old(nextId), stackDepth)
    {
      var resolvable := Resolution.RecipeOf(implementedBy, lifetimeScope, constructorParameters);
      resolvables := resolvables[key := resolvable];
      outcome := Success(());
      if lifetimeScope == Permanent {
        var built := ResolveTransient(resolvable, stackDepth);
        match built
        case Success(v) =>
          values := values[key := v];
        case Failure(e) =>
          outcome := Failure(e);
      }
    }

    /** Store a permanent recipe without an implementation under `key` and cache
        `value` as it is; nothing is constructed. */
    method RegisterValue(key: Key, value: Value)
      requires Valid()
      modifies this
      ensures Valid()
      ensures Tables() == Resolution.RegisterValue(old(Tables()), key, value)
      ensures nextId == old(nextId)
    {
      var resolvable := Resolvable(None, Permanent, None);
      resolvables := resolvables[key := resolvable];
      values := values[key := value];
    }

    /** Resolve `key`; only the identity counter can change. */
    method Resolve(key: Key) returns (r: Result<Value>)
      requires Valid()
      modifies this`nextId
      ensures Valid()
      ensures Resolution.Resolve(Tables(), key, old(nextId), stackDepth) == Resolution.Step(r, nextId)
    {
      r := ResolveNested(key, stackDepth);
    }

    /** `resolve` as called from a constructor's default parameter, with `depth`
        constructions still allowed on the stack. */
    method ResolveNested(key: Key, depth: nat) returns (r: Result<Value>)
      requires Valid()
      modifies this`nextId
      ensures Valid()
      ensures Resolution.Resolve(Tables(), key, old(nextId), depth) == Resolution.Step(r, nextId)
      decreases depth, 2
    {
      if key !in resolvables {
        return Failure(CannotResolve(KeyName(key)));
      }
      var resolvedResolvable := resolvables[key];
      match resolvedResolvable.lifetimeScope
      case Transient =>
        r := ResolveTransient(resolvedResolvable, depth);
      case Permanent =>
        r := ResolvePermanent(key);
    }

    /** Construct the recipe's implementation with its stored arguments, or none. */
    method ResolveTransient(resolvable: Resolvable, depth: nat) returns (r: Result<Value>)
      requires Valid() && resolvable.implementation.Some?
      modifies this`nextId
      ensures Valid()
      ensures Resolution.ResolveTransient(Tables(), resolvable, old(nextId), depth) == Resolution.Step(r, nextId)
      decreases depth, 1
    {
      var args := ArgumentsOf(resolvable);
      r := Construct(resolvable.implementation.value, args, depth);
    }

    /** `new impl(...args)`: take a fresh identity, then resolve each dependency
        in turn; the first failure aborts the construction. */
    method Construct(impl: Implementation, args: seq<Value>, depth: nat) returns (r: Result<Value>)
      requires Valid()
      modifies this`nextId
      ensures Valid()
      ensures Resolution.Construct(Tables(), impl, args, old(nextId), depth) == Resolution.Step(r, nextId)
      decreases depth, 0
    {
      if depth == 0 {
        return Failure(StackOverflow);
      }
      var id := nextId;
      nextId := nextId + 1;
      var deps := impl.dependencies;
      var resolved: seq<Value> := [];
      var i := 0;
      while i < |deps|
        invariant 0 <= i <= |deps|
        invariant Valid()
        invariant Resolution.ResolveAll(Tables(), deps[..i], id + 1, depth - 1) == Resolution.Step(Success(resolved), nextId)
      {
        assert deps[..i + 1][..i] == deps[..i];
        var d := ResolveNested(deps[i], depth - 1);
        match d
        case Failure(e) =>
          Resolution.ResolveAllStopsAtFailure(Tables(), deps, i + 1, id + 1, depth - 1);
          return Failure(e);
        case Success(v) =>
          resolved := resolved + [v];
          i := i + 1;
      }
      assert deps[..i] == deps;
      r := Success(Object(id, impl, args, resolved));
    }

    /** The cached instance for `key`, or the key's own error. */
    method ResolvePermanent(key: Key) returns (r: Result<Value>)
      ensures r == Resolution.ResolvePermanent(Tables(), key)
    {
      var resolvedInstance := if key in values then Some(values[key]) else None;
      match resolvedInstance
      case None =>
        r := Failure(CannotResolve(KeyName(key)));
      case Some(v) =>
        r := Success(v);
    }
  }

  /** A client registering a composition out of order: `C3` needs `C5`, which is
      never registered, so registering `C3` fails naming `C5`, and resolving `C3`
      afterwards fails naming `C3` itself. */
  method OutOfOrderComposition() returns (registered: Result<()>, resolved: Result<Value>)
    ensures registered == Failure(CannotResolve("CascadingClass5"))
    ensures resolved == Failure(CannotResolve("CascadingClass3"))
  {
    var c4 := Type("CascadingClass4", 4);
    var c5 := Type("CascadingClass5", 5);
    var c3 := Type("CascadingClass3", 3);
    var container := new Container(8);
    var ok := container.Register(c4, Implementation("CascadingClass4", []), Permanent, None);
    assert c4 in container.values;
    ghost var before, next := container.Tables(), container.nextId;
    registered := container.Register(c3, Implementation("CascadingClass3", [c5]), Permanent, None);
    Properties.RegistrationWithMissingDependency(before, c3, Implementation("CascadingClass3", [c5]), None, next, 8, 0);
    resolved := container.Resolve(c3);
  }

  /** A client resolving one class twice under each scope: the permanent key
      gives the same object both times, the transient key two different ones. */
  method SingletonAndFresh() returns (x: Result<Value>, y: Result<Value>, p: Result<Value>, q: Result<Value>)
    ensures x.Success? && y.Success? && x.value != y.value
    ensures p.Success? && q.Success? && p.value == q.value
  {
    var transientKey := Type("ObjectWithNumValue", 1);
    var permanentKey := Str("counter");
    var impl := Implementation("MyTransientObject", []);
    var container := new Container(1);
    var ok := container.Register(transientKey, impl, Transient, None);
    x := container.Resolve(transientKey);
    y := container.Resolve(transientKey);
    ok := container.Register(permanentKey, impl, Permanent, None);
    p := container.Resolve(permanentKey);
    q := container.Resolve(permanentKey);
  }
}
