/** The meaning of each container operation, as functions of the container's two
    tables and of `next`, the identity the next constructed object will receive.
    `depth` is how many constructions may still be nested on the call stack. */
module Resolution {
  import opened Types

  /** The container's two tables: recipes and cached instances. */
  datatype Registry = Registry(resolvables: map<Key, Resolvable>, values: map<Key, Value>)

  /** The result of a resolution together with the next free identity. */
  datatype Step<+T> = Step(result: Result<T>, next: nat)

  /** The tables after a registration, its outcome and the next free identity. */
  datatype Update = Update(registry: Registry, outcome: Result<()>, next: nat)

  /** The container's invariant: an instance is cached only under a key that has
      a recipe, and every transient recipe has an implementation to construct. */
  ghost predicate WellFormed(reg: Registry) {
    && reg.values.Keys <= reg.resolvables.Keys
    && forall k :: k in reg.resolvables && reg.resolvables[k].lifetimeScope == Transient ==>
         reg.resolvables[k].implementation.Some?
  }

  /** `a` and `b` hold the same entries for every key other than `key`. */
  ghost predicate AgreeExcept<V>(a: map<Key, V>, b: map<Key, V>, key: Key) {
    forall k :: k != key ==> (k in a <==> k in b) && (k in a ==> a[k] == b[k])
  }

  /** A key that resolves without constructing anything: permanent and cached. */
  ghost predicate Available(reg: Registry, key: Key) {
    key in reg.resolvables && reg.resolvables[key].lifetimeScope == Permanent && key in reg.values
  }

  /** `resolve(key)`: an unknown key fails with its own name; a transient recipe
      constructs a new object; a permanent one returns the cached instance. */
  ghost function Resolve(reg: Registry, key: Key, next: nat, depth: nat): (s: Step<Value>)
    requires WellFormed(reg)
    ensures s.next >= next
    ensures Available(reg, key) ==> s == Step(Success(reg.values[key]), next)
    ensures s.result.Success? && key in reg.resolvables && reg.resolvables[key].lifetimeScope == Transient ==>
              s.result.value.Object? && s.result.value.id == next && s.next > next
    decreases depth, 2
  {
    if key !in reg.resolvables then Step(Failure(CannotResolve(KeyName(key))), next)
    else
      match reg.resolvables[key].lifetimeScope
      case Transient => ResolveTransient(reg, reg.resolvables[key], next, depth)
      case Permanent => Step(ResolvePermanent(reg, key), next)
  }

  /** `resolvePermanent(key)`: the cached instance, or the key's own error. */
  ghost function ResolvePermanent(reg: Registry, key: Key): (r: Result<Value>)
    ensures r.Success? <==> key in reg.values
    ensures r.Success? ==> r.value == reg.values[key]
    ensures r.Failure? ==> r.error == CannotResolve(KeyName(key))
  {
    if key in reg.values then Success(reg.values[key]) else Failure(CannotResolve(KeyName(key)))
  }

  /** `resolveTransient(recipe)`: construct the recipe's implementation with the
      recipe's stored arguments, or with none. */
  ghost function ResolveTransient(reg: Registry, recipe: Resolvable, next: nat, depth: nat): (s: Step<Value>)
    requires WellFormed(reg) && recipe.implementation.Some?
    ensures s.next >= next
    ensures s.result.Success? ==>
              && s.next > next
              && s.result.value.Object?
              && s.result.value.id == next
              && s.result.value.implementation == recipe.implementation.value
              && s.result.value.parameters == ArgumentsOf(recipe)
    decreases depth, 1
  {
    Construct(reg, recipe.implementation.value, ArgumentsOf(recipe), next, depth)
  }

  /** `new impl(...args)`: the object takes identity `next`, then its default
      parameters resolve the dependencies in order; the first failure aborts the
      construction. */
  ghost function Construct(reg: Registry, impl: Implementation, args: seq<Value>, next: nat, depth: nat): (s: Step<Value>)
    requires WellFormed(reg)
    ensures s.next >= next
    ensures s.result.Success? ==>
              && s.next > next
              && s.result.value.Object?
              && s.result.value.id == next
              && s.result.value.implementation == impl
              && s.result.value.parameters == args
              && |s.result.value.dependencies| == |impl.dependencies|
    decreases depth, 0
  {
    if depth == 0 then Step(Failure(StackOverflow), next)
    else
      var deps := ResolveAll(reg, impl.dependencies, next + 1, depth - 1);
      match deps.result
      case Failure(e) => Step(Failure(e), deps.next)
      case Success(vs) => Step(Success(Object(next, impl, args, vs)), deps.next)
  }

  /** Resolve `keys` one after another, threading the identity counter; stop at
      the first failure. */
  ghost function ResolveAll(reg: Registry, keys: seq<Key>, next: nat, depth: nat): (s: Step<seq<Value>>)
    requires WellFormed(reg)
    ensures s.next >= next
    ensures s.result.Success? ==> |s.result.value| == |keys|
    decreases depth, 3, |keys|
  {
    if keys == [] then Step(Success([]), next)
    else
      var init := ResolveAll(reg, keys[..|keys| - 1], next, depth);
      match init.result
      case Failure(e) => Step(Failure(e), init.next)
      case Success(vs) =>
        var last := Resolve(reg, keys[|keys| - 1], init.next, depth);
        match last.result
        case Failure(e) => Step(Failure(e), last.next)
        case Success(v) => Step(Success(vs + [v]), last.next)
  }

  /** The recipe `register(key, impl, scope, params)` stores. */
  function RecipeOf(impl: Implementation, scope: LifetimeScope, params: Option<seq<Value>>): Resolvable {
    Resolvable(Some(impl), scope, params)
  }

  /** The tables as `register` leaves them once the recipe is written, before
      anything is constructed. */
  ghost function Written(reg: Registry, key: Key, impl: Implementation, scope: LifetimeScope,
                         params: Option<seq<Value>>): Registry
  {
    reg.(resolvables := reg.resolvables[key := RecipeOf(impl, scope, params)])
  }

  /** `register(key, impl, scope, params)`: the recipe is written first; then,
      for a permanent scope, the instance is constructed against the tables that
      already hold that recipe and, if construction succeeds, cached. */
  ghost function Register(reg: Registry, key: Key, impl: Implementation, scope: LifetimeScope,
                          params: Option<seq<Value>>, next: nat, depth: nat): (u: Update)
    requires WellFormed(reg)
    ensures WellFormed(u.registry)
    ensures u.registry.resolvables == reg.resolvables[key := RecipeOf(impl, scope, params)]
    ensures u.outcome.Failure? ==> scope == Permanent
    ensures u.outcome.Failure? ==> u.registry.values == reg.values
    ensures scope == Transient ==> u == Update(u.registry, Success(()), next) && u.registry.values == reg.values
    ensures scope == Permanent && u.outcome.Success? ==>
              && key in u.registry.values
              && u.registry.values == reg.values[key := u.registry.values[key]]
              && u.registry.values[key].Object?
              && u.registry.values[key].id == next
              && u.registry.values[key].parameters == ArgumentsOf(RecipeOf(impl, scope, params))
    ensures scope == Permanent ==>
              var built := Construct(Written(reg, key, impl, scope, params), impl,
                                     ArgumentsOf(RecipeOf(impl, scope, params)), next, depth);
              && u.next == built.next
              && (u.outcome.Success? <==> built.result.Success?)
              && (u.outcome.Success? ==> key in u.registry.values && u.registry.values[key] == built.result.value
                                         && u.registry.values[key].implementation == impl)
              && (u.outcome.Failure? ==> u.outcome.error == built.result.error)
  {
    var recipe := RecipeOf(impl, scope, params);
    var written := Written(reg, key, impl, scope, params);
    match scope
    case Transient => Update(written, Success(()), next)
    case Permanent =>
      var built := ResolveTransient(written, recipe, next, depth);
      match built.result
      case Failure(e) => Update(written, Failure(e), built.next)
      case Success(v) => Update(written.(values := written.values[key := v]), Success(()), built.next)
  }

  /** `registerValue(key, value)`: a permanent recipe with no implementation, and
      the value cached as it is. */
  ghost function RegisterValue(reg: Registry, key: Key, value: Value): (r: Registry)
    requires WellFormed(reg)
    ensures WellFormed(r)
    ensures key in r.resolvables && r.resolvables[key] == Resolvable(None, Permanent, None)
    ensures AgreeExcept(r.resolvables, reg.resolvables, key)
    ensures AgreeExcept(r.values, reg.values, key)
    ensures Available(r, key) && r.values[key] == value
  {
    Registry(reg.resolvables[key := Resolvable(None, Permanent, None)], reg.values[key := value])
  }

  /** Once a prefix of `keys` fails to resolve, the rest is never attempted. */
  lemma {:induction false} ResolveAllStopsAtFailure(reg: Registry, keys: seq<Key>, j: nat, next: nat, depth: nat)
    requires WellFormed(reg) && j <= |keys|
    requires ResolveAll(reg, keys[..j], next, depth).result.Failure?
    ensures ResolveAll(reg, keys, next, depth) == ResolveAll(reg, keys[..j], next, depth)
    decreases |keys|
  {
    if j == |keys| {
      assert keys[..j] == keys;
    } else {
      var init := keys[..|keys| - 1];
      assert init[..j] == keys[..j];
      ResolveAllStopsAtFailure(reg, init, j, next, depth);
    }
  }
}
