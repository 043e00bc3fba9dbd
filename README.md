# A verified model of a minimal dependency-injection container

The container (`Container` in `src/index.ts`) maps keys to recipes and keeps
a cache of instances. A key is a string or a class reference. A recipe names
an implementation, a lifetime scope and optional constructor arguments. The
container has three operations:

- `register(key, impl, scope, params)` writes the recipe. For the
  `"permanent"` scope it then builds the instance at once and caches it.
- `registerValue(key, value)` writes a permanent recipe with no implementation
  and caches `value` as it is.
- `resolve(key)` fails with `Cannot resolve type <name>.` when the key has no
  recipe. Otherwise a transient recipe builds a new object, and a permanent
  recipe returns the cached instance (or the same error if none is cached).

The model has four modules:

- `Types` holds keys, scopes, recipes (`Resolvable`), values, errors, the key
  name used in messages (`KeyName`) and the message text (`Message`).
- `Resolution` gives the meaning of every operation as a ghost function. Its
  inputs are the two tables (`Registry`), the identity counter `next` and the
  remaining stack `depth`.
- `Properties` holds lemmas about sequences of operations.
- `Injector` holds the class `Container`. Its fields are `resolvables` and
  `values`, which the methods update in place. Every method is proved against
  the matching `Resolution` function.

Two modelling choices stand in for JavaScript semantics:

- Object identity is a number. Each `new` takes the next value of the counter
  `nextId`, so "the same instance" and "a distinct instance" can be stated.
- A constructor is an `Implementation`: a class name and the keys its default
  parameters resolve, in declaration order. The object takes its identity
  first. Then each dependency is resolved, and the first failure aborts the
  construction with that dependency's error.

The model also records these behaviours of the code:

- The recipe is written before the permanent instance is built
  (`src/index.ts:28`, then `:31`). So a failed permanent registration leaves
  its recipe behind. A class that resolves its own key fails with its own
  name when no instance is cached for the key. When an earlier instance is
  cached (from an earlier `register` or `registerValue`), the registration
  succeeds and the new object holds that earlier instance
  (`SelfDependencyOnCachedKeyUsesEarlierInstance`).
- A failed RE-registration of a permanent key keeps the earlier cached
  instance. Resolving the key then still returns that old instance
  (`FailedReregistrationKeepsEarlierInstance`).
- Re-registering a permanent key as transient leaves its cached instance in
  `values`. It is not returned while the recipe stays transient, because
  resolution takes the transient path. A later permanent re-registration that
  fails, or whose class resolves its own key, returns it again
  (`FailedReregistrationKeepsEarlierInstance`,
  `SelfDependencyOnCachedKeyUsesEarlierInstance`).
- The invariant `WellFormed` holds after every operation. An instance is
  cached only under a key that has a recipe, and every transient recipe has an
  implementation. So the non-null assertion at `src/index.ts:70` never fails.

## Model

| member | source | states |
|---|---|---|
| `Types.MessageIdentifiesName` | src/index.ts:50 | the text `Cannot resolve type <name>.` determines the name: two different names never give the same message |
| `Resolution.Resolve` | src/index.ts:44-61 | resolution only moves the identity counter forward; a permanent cached key always resolves, to its cached instance, with no construction; a successful transient resolution yields an object whose identity is the counter's value `next` |
| `Resolution.ResolvePermanent` | src/index.ts:73-83 | succeeds exactly when the key has a cached instance, and returns it; otherwise fails with `CannotResolve` of the key's own name |
| `Resolution.ResolveTransient` | src/index.ts:67-71 | a successful transient construction yields a new object of the recipe's implementation, with the recipe's arguments, or none when they were omitted |
| `Resolution.Construct` | src/index.ts:70 | a constructed object takes the next free identity, keeps its arguments verbatim and holds one resolved dependency per declared dependency |
| `Resolution.ResolveAll` | test/injectorTest.ts:9-12 | resolving a constructor's default parameters in order yields one value per key and only moves the counter forward |
| `Resolution.ResolveAllStopsAtFailure` | test/injectorTest.ts:9-12 | once one dependency fails, the later ones are never attempted and the failure is the result |
| `Resolution.Register` | src/index.ts:17-33 | the recipe is always overwritten; a transient registration constructs and caches nothing; a failure happens only for permanent scope and leaves the cache unchanged; a permanent registration succeeds exactly when constructing `impl` against the tables that already hold the new recipe succeeds: on success the cached object is that construction's result (an instance of `impl` with identity `next` and the recipe's arguments) and no other entry changes, on failure the error is the construction's own error, unchanged; the counter ends where the construction left it; the invariant is kept |
| `Resolution.RegisterValue` | src/index.ts:35-42 | stores a permanent recipe with no implementation and caches exactly the given value; every other key's recipe and instance are unchanged; the invariant is kept |
| `Properties.UnregisteredKeyFails` | src/index.ts:47-50 | a key with no recipe fails with `CannotResolve` and constructs nothing; the name is the string for a string key and the class name for a class key (`src/index.ts:85-90`) |
| `Properties.UnresolvableKeyFails` | src/index.ts:76-79 | a permanent key with nothing cached fails with its own name, like a missing key |
| `Properties.AvailableDependenciesResolve` | src/index.ts:56-57 | dependencies that are all permanent and cached resolve to exactly the cached instances, in order, with no construction |
| `Properties.FirstUnresolvableDependency` | src/index.ts:47-50 | after dependencies that all resolve (from the cache or by new construction), a dependency with no recipe, or permanent with nothing cached, aborts the whole sequence with its own name, and the later ones are never attempted |
| `Properties.RegisterChangesOnlyItsKey` | src/index.ts:28-31 | `register` stores the new recipe under the key and leaves every other key's recipe and cached instance as they were |
| `Properties.RegistrationAfterDependencies` | src/index.ts:30-32 | a permanent registration whose dependencies are already registered and cached (the key itself included) succeeds; it caches a new object that holds exactly those cached instances |
| `Properties.RegistrationWithMissingDependency` | src/index.ts:28-32 | a permanent registration whose dependencies before `d` all resolve, and where `d` has no recipe or is permanent with nothing cached once the recipe is written, fails with `CannotResolve(name of d)`; the recipe is written and nothing is cached |
| `Properties.RegistrationThroughTransientDependency` | src/index.ts:30-32 | a permanent class whose dependency is a transient class that needs an unresolvable key fails to register with that innermost key's name; two identities are used up and nothing is cached |
| `Properties.SelfDependencyFailsRegistration` | src/index.ts:28-31 | because the recipe is written first, a permanent class that resolves its own key fails naming itself, when no instance is cached for the key |
| `Properties.SelfDependencyOnCachedKeyUsesEarlierInstance` | src/index.ts:28-31 | when an instance is already cached for the key, a permanent class that resolves its own key registers successfully and its dependency is that earlier instance |
| `Properties.ResolveAllElementwise` | test/injectorTest.ts:9-12 | each value resolved for a constructor's default parameters is exactly what resolving its key gives, with the counter where the keys before it left it |
| `Properties.ConstructedDependencies` | src/index.ts:70 | the i-th dependency of a constructed object is what `resolve` gave for the i-th declared key; a transient dependency is an object built after its owner took its identity (test/injectorTest.ts:184-193) |
| `Properties.FailedRegistrationLeavesUnresolvableKey` | test/injectorTest.ts:127-133 | after a failed permanent registration of a key with no earlier instance, the recipe remains and resolving the key fails with the key's own name |
| `Properties.FailedReregistrationKeepsEarlierInstance` | src/index.ts:31 | a failed permanent re-registration keeps the earlier cached instance, and resolving the key returns it |
| `Properties.PermanentRegistrationIsSingleton` | src/index.ts:56-57 | after a successful permanent registration, every resolution returns the one instance built during registration and builds nothing |
| `Properties.TransientResolutionsAreDistinct` | src/index.ts:54-55 | two successive transient resolutions give two distinct objects with increasing identities |
| `Properties.TransientRegistrationConstructsOnResolve` | src/index.ts:30 | a transient registration constructs nothing and keeps any cached instance; each later resolution constructs from the stored recipe |
| `Properties.RegisteredValueResolves` | src/index.ts:35-42 | `registerValue(k, v)` then `resolve(k)` gives exactly `v` for any key and constructs nothing |
| `Properties.ConstructorArgumentsForwarded` | src/index.ts:23-27 | the arguments given at registration reach the object verbatim and in order, in both scopes; omitted arguments become an empty list (`src/index.ts:70`) |
| `Injector.Container.constructor` | src/index.ts:14-15 | a new container has two empty tables and satisfies the invariant |
| `Injector.Container.Register` | src/index.ts:17-33 | writes the recipe in place, then for a permanent scope constructs and caches the instance; the new tables, outcome and counter are those of `Resolution.Register` |
| `Injector.Container.RegisterValue` | src/index.ts:35-42 | updates both tables in place as `Resolution.RegisterValue` says and constructs nothing |
| `Injector.Container.Resolve` | src/index.ts:44-61 | changes neither table and returns what `Resolution.Resolve` gives |
| `Injector.Container.ResolveNested` | src/index.ts:44-61 | a resolution started from inside a constructor, with less stack left; same result as `Resolution.Resolve` |
| `Injector.Container.ResolveTransient` | src/index.ts:67-71 | constructs the recipe's implementation with its arguments, as `Resolution.ResolveTransient` says |
| `Injector.Container.Construct` | src/index.ts:70 | the loop over the default parameters keeps the resolved prefix equal to `Resolution.ResolveAll`; the result is that of `Resolution.Construct` |
| `Injector.Container.ResolvePermanent` | src/index.ts:73-83 | reads only the cache and returns what `Resolution.ResolvePermanent` gives |
| `Injector.OutOfOrderComposition` | test/injectorTest.ts:118-134 | registering a class whose dependency is missing fails naming the dependency, and resolving that class afterwards fails naming the class |
| `Injector.SingletonAndFresh` | test/injectorTest.ts:152-168 | from the class contracts alone: a transient key resolves to two distinct objects, and a permanent key to the same object twice |

## Left out

- `getResolver` (`src/index.ts:63-65`) only binds `resolve` to the container. `ResolveNested` plays its part for calls made from constructors.
- `globalContainer` and `globalResolve` (`src/index.ts:93-94`) are one shared instance of the class. They have no logic of their own.
- The `"Unknown lifetime scope."` branch (`src/index.ts:58-59`) cannot be reached, because the scope is a closed datatype.
- A value registered as JavaScript `undefined` resolves as missing (`src/index.ts:78`). Values here are always present or absent, so this case is not modelled.
- Constructors are abstracted as a class name plus the keys their default parameters resolve. Other side effects of a constructor (such as a static counter) are not modelled. A constructor that registers keys itself is not modelled either.
- An explicit argument in a position that has a default parameter suppresses that parameter's `resolve` in JavaScript. The model always resolves every declared dependency. No constructor in the repository is called that way.
- The engine's finite call stack is modelled by `stackDepth`, a bound on nested constructions. Beyond it, resolution fails with `StackOverflow`. This bound is what ends a cyclic chain of transient dependencies. The actual stack size of a JavaScript engine is not modelled.
- Type-level details are not modelled: TypeScript generics, and the difference between abstract and concrete classes used as keys. A class key is its declared name plus an identity.
- Values supplied from outside (`registerValue`, constructor arguments) are compared by content, not by reference: two distinct outside objects with equal content are equal here. Likewise the constructor-argument list is stored as a value, while the source keeps a reference to the caller's array (`src/index.ts:23-28`) and spreads it at each construction (`src/index.ts:70`): a caller that changes that array after registering a transient recipe changes what later resolutions receive, which the model does not capture. `registerValue` also accepts any `Object` value, so no invariant ties the identities of cached objects to the counter; only objects the container constructs itself are known to take fresh identities.
