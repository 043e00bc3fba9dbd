/** What the container promises its callers, stated over sequences of operations. */
module Properties {
  import opened Types
  import opened Resolution

  /** A key whose resolution fails at once, without constructing anything: it has
      no recipe, or a permanent recipe with nothing cached. */
  ghost predicate Unresolvable(reg: Registry, key: Key) {
    key !in reg.resolvables || (reg.resolvables[key].lifetimeScope == Permanent && key !in reg.values)
  }

  /** Resolving a key that has no recipe fails with the key's name (the string
      itself, or the class's name) and constructs nothing. */
  lemma UnregisteredKeyFails(reg: Registry, key: Key, next: nat, depth: nat)
    requires WellFormed(reg) && key !in reg.resolvables
    ensures Resolve(reg, key, next, depth) == Step(Failure(CannotResolve(KeyName(key))), next)
    ensures key.Str? ==> KeyName(key) == key.s
    ensures key.Type? ==> KeyName(key) == key.name
  {
  }

  /** A key with no recipe, or a permanent one with nothing cached, fails with its
      own name and constructs nothing. */
  lemma UnresolvableKeyFails(reg: Registry, key: Key, next: nat, depth: nat)
    requires WellFormed(reg) && Unresolvable(reg, key)
    ensures Resolve(reg, key, next, depth) == Step(Failure(CannotResolve(KeyName(key))), next)
  {
  }

  /** Dependencies that are all permanent and cached resolve to the cached
      instances, in order, without constructing anything. */
  lemma {:induction false} AvailableDependenciesResolve(reg: Registry, keys: seq<Key>, next: nat, depth: nat)
    requires WellFormed(reg)
    requires forall i :: 0 <= i < |keys| ==> Available(reg, keys[i])
    ensures var s := ResolveAll(reg, keys, next, depth);
            && s.result.Success? && s.next == next && |s.result.value| == |keys|
            && forall i :: 0 <= i < |keys| ==> keys[i] in reg.values && s.result.value[i] == reg.values[keys[i]]
    decreases |keys|
  {
    if keys != [] {
      var init := keys[..|keys| - 1];
      AvailableDependenciesResolve(reg, init, next, depth);
      var last := Resolve(reg, keys[|keys| - 1], next, depth);
      assert last == Step(Success(reg.values[keys[|keys| - 1]]), next);
    }
  }

  /** When the dependencies before `keys[j]` all resolve (by cache or by new
      construction) and `keys[j]` cannot be resolved, the whole sequence fails
      with the name of `keys[j]`; the later ones are never attempted. */
  lemma FirstUnresolvableDependency(reg: Registry, keys: seq<Key>, j: nat, next: nat, depth: nat)
    requires WellFormed(reg) && j < |keys|
    requires ResolveAll(reg, keys[..j], next, depth).result.Success?
    requires Unresolvable(reg, keys[j])
    ensures ResolveAll(reg, keys, next, depth)
            == Step(Failure(CannotResolve(KeyName(keys[j]))), ResolveAll(reg, keys[..j], next, depth).next)
  {
    var prefix := keys[..j + 1];
    assert prefix[..j] == keys[..j];
    ResolveAllStopsAtFailure(reg, keys, j + 1, next, depth);
  }

  /** `register` stores the recipe whatever happens next, and changes no other
      key's recipe or cached instance. */
  lemma RegisterChangesOnlyItsKey(reg: Registry, key: Key, impl: Implementation, scope: LifetimeScope,
                                  params: Option<seq<Value>>, next: nat, depth: nat)
    requires WellFormed(reg)
    ensures var u := Register(reg, key, impl, scope, params, next, depth);
            && key in u.registry.resolvables
            && u.registry.resolvables[key] == Resolvable(Some(impl), scope, params)
            && AgreeExcept(u.registry.resolvables, reg.resolvables, key)
            && AgreeExcept(u.registry.values, reg.values, key)
  {
  }

  /** A permanent registration whose dependencies are all registered and cached
      succeeds, and caches a new object holding exactly those instances. */
  lemma RegistrationAfterDependencies(reg: Registry, key: Key, impl: Implementation,
                                      params: Option<seq<Value>>, next: nat, depth: nat)
    requires WellFormed(reg) && depth > 0
    requires forall i :: 0 <= i < |impl.dependencies| ==> Available(reg, impl.dependencies[i])
    ensures var u := Register(reg, key, impl, Permanent, params, next, depth);
            && u.outcome.Success?
            && u.next == next + 1
            && key in u.registry.values
            && var inst := u.registry.values[key];
            && inst.Object? && inst.id == next && inst.implementation == impl
            && |inst.dependencies| == |impl.dependencies|
            && forall i :: 0 <= i < |impl.dependencies| ==>
                 impl.dependencies[i] in reg.values && inst.dependencies[i] == reg.values[impl.dependencies[i]]
  {
    var w := Written(reg, key, impl, Permanent, params);
    var args := ArgumentsOf(RecipeOf(impl, Permanent, params));
    forall i | 0 <= i < |impl.dependencies| ensures Available(w, impl.dependencies[i]) {
    }
    AvailableDependenciesResolve(w, impl.dependencies, next + 1, depth - 1);
    var deps := ResolveAll(w, impl.dependencies, next + 1, depth - 1);
    assert Construct(w, impl, args, next, depth) == Step(Success(Object(next, impl, args, deps.result.value)), next + 1);
  }

  /** A permanent registration whose dependencies before `d` all resolve, and
      where `d` cannot be resolved once the recipe is written (a missing key, or
      the key being registered itself), fails with the name of `d`; the recipe
      stays and nothing is cached. */
  lemma RegistrationWithMissingDependency(reg: Registry, key: Key, impl: Implementation,
                                          params: Option<seq<Value>>, next: nat, depth: nat, j: nat)
    requires WellFormed(reg) && depth > 0 && j < |impl.dependencies|
    requires ResolveAll(Written(reg, key, impl, Permanent, params), impl.dependencies[..j], next + 1, depth - 1).result.Success?
    requires Unresolvable(Written(reg, key, impl, Permanent, params), impl.dependencies[j])
    ensures var u := Register(reg, key, impl, Permanent, params, next, depth);
            && u.outcome == Failure(CannotResolve(KeyName(impl.dependencies[j])))
            && u.registry == Written(reg, key, impl, Permanent, params)
            && u.next == ResolveAll(Written(reg, key, impl, Permanent, params), impl.dependencies[..j], next + 1, depth - 1).next
  {
    var w := Written(reg, key, impl, Permanent, params);
    var args := ArgumentsOf(RecipeOf(impl, Permanent, params));
    var e := CannotResolve(KeyName(impl.dependencies[j]));
    var at := ResolveAll(w, impl.dependencies[..j], next + 1, depth - 1).next;
    FirstUnresolvableDependency(w, impl.dependencies, j, next + 1, depth - 1);
    assert Construct(w, impl, args, next, depth) == Step(Failure(e), at);
  }

  /** A permanent class whose one dependency is a transient class, itself
      depending on a key that cannot be resolved, fails to register with the name
      of that innermost key: the nested construction's error reaches `register`
      unchanged, two identities are used up, and nothing is cached. */
  lemma RegistrationThroughTransientDependency(reg: Registry, key: Key, impl: Implementation,
                                               params: Option<seq<Value>>, t: Key, x: Key,
                                               next: nat, depth: nat)
    requires WellFormed(reg) && depth > 1 && impl.dependencies == [t]
    requires t != key && t in reg.resolvables && reg.resolvables[t].lifetimeScope == Transient
    requires reg.resolvables[t].implementation.Some?
    requires reg.resolvables[t].implementation.value.dependencies == [x]
    requires Unresolvable(Written(reg, key, impl, Permanent, params), x)
    ensures var u := Register(reg, key, impl, Permanent, params, next, depth);
            && u.outcome == Failure(CannotResolve(KeyName(x)))
            && u.registry.values == reg.values
            && u.next == next + 2
  {
    var w := Written(reg, key, impl, Permanent, params);
    var inner := reg.resolvables[t];
    var e := CannotResolve(KeyName(x));
    FirstUnresolvableDependency(w, [x], 0, next + 2, depth - 2);
    assert Construct(w, inner.implementation.value, ArgumentsOf(inner), next + 1, depth - 1) == Step(Failure(e), next + 2);
    assert Resolve(w, t, next + 1, depth - 1) == Step(Failure(e), next + 2);
    assert ResolveAll(w, impl.dependencies, next + 1, depth - 1) == Step(Failure(e), next + 2);
  }

  /** Because the recipe is written before construction, a permanent class that
      resolves its own key fails with its own name, even though the key is
      registered by then. */
  lemma SelfDependencyFailsRegistration(reg: Registry, key: Key, name: string,
                                        params: Option<seq<Value>>, next: nat, depth: nat)
    requires WellFormed(reg) && depth > 0 && key !in reg.values
    ensures var u := Register(reg, key, Implementation(name, [key]), Permanent, params, next, depth);
            && u.outcome == Failure(CannotResolve(KeyName(key)))
            && key in u.registry.resolvables
  {
    RegistrationWithMissingDependency(reg, key, Implementation(name, [key]), params, next, depth, 0);
  }

  /** A permanent class that resolves its own key, registered again while an
      earlier instance is cached, succeeds: its dependency is that earlier
      instance, because the nested resolution finds the new permanent recipe and
      then the old cache entry. */
  lemma SelfDependencyOnCachedKeyUsesEarlierInstance(reg: Registry, key: Key, name: string,
                                                     params: Option<seq<Value>>, next: nat, depth: nat)
    requires WellFormed(reg) && depth > 0 && key in reg.values
    ensures var u := Register(reg, key, Implementation(name, [key]), Permanent, params, next, depth);
            && u.outcome.Success?
            && key in u.registry.values
            && u.registry.values[key].Object?
            && u.registry.values[key].dependencies == [reg.values[key]]
  {
    var impl := Implementation(name, [key]);
    var w := Written(reg, key, impl, Permanent, params);
    var args := ArgumentsOf(RecipeOf(impl, Permanent, params));
    AvailableDependenciesResolve(w, impl.dependencies, next + 1, depth - 1);
    var deps := ResolveAll(w, impl.dependencies, next + 1, depth - 1);
    assert deps.result.value == [reg.values[key]];
    assert Construct(w, impl, args, next, depth) == Step(Success(Object(next, impl, args, deps.result.value)), next + 1);
  }

  /** Each value `ResolveAll` returns is what resolving its key gives, with the
      counter where the keys before it left it. */
  lemma {:induction false} ResolveAllElementwise(reg: Registry, keys: seq<Key>, next: nat, depth: nat)
    requires WellFormed(reg)
    ensures var s := ResolveAll(reg, keys, next, depth);
            s.result.Success? ==>
              forall i :: 0 <= i < |keys| ==>
                Resolve(reg, keys[i], ResolveAll(reg, keys[..i], next, depth).next, depth).result
                == Success(s.result.value[i])
    decreases |keys|
  {
    var s := ResolveAll(reg, keys, next, depth);
    if keys != [] && s.result.Success? {
      var init := keys[..|keys| - 1];
      ResolveAllElementwise(reg, init, next, depth);
      forall i | 0 <= i < |keys|
        ensures Resolve(reg, keys[i], ResolveAll(reg, keys[..i], next, depth).next, depth).result
                == Success(s.result.value[i])
      {
        if i < |keys| - 1 {
          assert init[..i] == keys[..i];
          assert init[i] == keys[i];
        } else {
          assert keys[..i] == init;
        }
      }
    }
  }

  /** The i-th dependency of a constructed object is what `resolve` gave for the
      i-th declared key, evaluated after the keys before it; a transient
      dependency is therefore an object built after its owner took its identity. */
  lemma ConstructedDependencies(reg: Registry, impl: Implementation, args: seq<Value>, next: nat, depth: nat)
    requires WellFormed(reg)
    ensures var s := Construct(reg, impl, args, next, depth);
            s.result.Success? ==>
              && depth > 0
              && forall i :: 0 <= i < |impl.dependencies| ==>
                   var at := ResolveAll(reg, impl.dependencies[..i], next + 1, depth - 1).next;
                   && Resolve(reg, impl.dependencies[i], at, depth - 1).result == Success(s.result.value.dependencies[i])
                   && (impl.dependencies[i] in reg.resolvables
                       && reg.resolvables[impl.dependencies[i]].lifetimeScope == Transient ==>
                         s.result.value.dependencies[i].Object? && s.result.value.dependencies[i].id > next)
  {
    if depth > 0 {
      ResolveAllElementwise(reg, impl.dependencies, next + 1, depth - 1);
    }
  }

  /** After a failed permanent registration of a key with no earlier instance,
      the recipe remains and resolving the key fails with the key's own name. */
  lemma FailedRegistrationLeavesUnresolvableKey(reg: Registry, key: Key, impl: Implementation,
                                                params: Option<seq<Value>>, next: nat, depth: nat, later: nat)
    requires WellFormed(reg) && key !in reg.values
    requires Register(reg, key, impl, Permanent, params, next, depth).outcome.Failure?
    ensures var u := Register(reg, key, impl, Permanent, params, next, depth);
            && key in u.registry.resolvables
            && key !in u.registry.values
            && Resolve(u.registry, key, later, depth) == Step(Failure(CannotResolve(KeyName(key))), later)
  {
  }

  /** A failed permanent RE-registration keeps the earlier cached instance, and
      resolving the key still returns that stale instance. */
  lemma FailedReregistrationKeepsEarlierInstance(reg: Registry, key: Key, impl: Implementation,
                                                 params: Option<seq<Value>>, next: nat, depth: nat, later: nat)
    requires WellFormed(reg) && key in reg.values
    requires Register(reg, key, impl, Permanent, params, next, depth).outcome.Failure?
    ensures var u := Register(reg, key, impl, Permanent, params, next, depth);
            Resolve(u.registry, key, later, depth) == Step(Success(reg.values[key]), later)
  {
  }

  /** After a successful permanent registration, every resolution of the key
      returns the one instance built during registration, and builds nothing. */
  lemma PermanentRegistrationIsSingleton(reg: Registry, key: Key, impl: Implementation,
                                         params: Option<seq<Value>>, next: nat, depth: nat,
                                         later: nat, laterDepth: nat)
    requires WellFormed(reg)
    requires Register(reg, key, impl, Permanent, params, next, depth).outcome.Success?
    ensures var u := Register(reg, key, impl, Permanent, params, next, depth);
            && key in u.registry.values
            && u.registry.values[key].Object? && u.registry.values[key].id == next
            && Resolve(u.registry, key, later, laterDepth) == Step(Success(u.registry.values[key]), later)
  {
  }

  /** Two resolutions of a transient key, one after the other, give two distinct
      objects, each newer than every identity handed out before. */
  lemma TransientResolutionsAreDistinct(reg: Registry, key: Key, next: nat, depth: nat)
    requires WellFormed(reg) && key in reg.resolvables && reg.resolvables[key].lifetimeScope == Transient
    requires Resolve(reg, key, next, depth).result.Success?
    requires Resolve(reg, key, Resolve(reg, key, next, depth).next, depth).result.Success?
    ensures var first := Resolve(reg, key, next, depth);
            var second := Resolve(reg, key, first.next, depth);
            && first.result.value.Object? && second.result.value.Object?
            && next <= first.result.value.id < second.result.value.id
            && first.result.value != second.result.value
  {
  }

  /** A transient registration constructs nothing; each later resolution of the
      key constructs a new object from the stored recipe. */
  lemma TransientRegistrationConstructsOnResolve(reg: Registry, key: Key, impl: Implementation,
                                                 params: Option<seq<Value>>, next: nat, depth: nat, later: nat)
    requires WellFormed(reg)
    ensures var u := Register(reg, key, impl, Transient, params, next, depth);
            && u.outcome.Success? && u.next == next
            && (key in reg.values ==> key in u.registry.values && u.registry.values[key] == reg.values[key])
            && Resolve(u.registry, key, later, depth)
               == Construct(u.registry, impl, ArgumentsOf(RecipeOf(impl, Transient, params)), later, depth)
  {
  }

  /** `registerValue(k, v)` then `resolve(k)` gives exactly `v`, for any key,
      and constructs nothing. */
  lemma RegisteredValueResolves(reg: Registry, key: Key, value: Value, next: nat, depth: nat)
    requires WellFormed(reg)
    ensures Resolve(RegisterValue(reg, key, value), key, next, depth) == Step(Success(value), next)
  {
  }

  /** The constructor arguments given at registration reach the constructed
      object verbatim and in order, in both scopes; omitted arguments are empty. */
  lemma ConstructorArgumentsForwarded(reg: Registry, key: Key, impl: Implementation, scope: LifetimeScope,
                                      params: Option<seq<Value>>, next: nat, depth: nat)
    requires WellFormed(reg)
    requires Register(reg, key, impl, scope, params, next, depth).outcome.Success?
    ensures var u := Register(reg, key, impl, scope, params, next, depth);
            var r := Resolve(u.registry, key, u.next, depth);
            r.result.Success? ==>
              && r.result.value.Object?
              && r.result.value.parameters == (if params.Some? then params.value else [])
  {
  }
}
