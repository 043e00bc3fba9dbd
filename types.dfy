/** The vocabulary of the container: keys, lifetime scopes, recipes, the values a
    key resolves to, and the failures resolution can raise. */
module Types {

  datatype Option<+T> = None | Some(value: T)

  datatype Result<+T> = Success(value: T) | Failure(error: Error)

  /** A registration key: either a string, or a class reference. A class is
      identified by `id` (two classes may share a name); `name` is the name the
      class was declared with. */
  datatype Key = Str(s: string) | Type(name: string, id: nat)

  /** The two lifetime policies a recipe can carry. */
  datatype LifetimeScope = Permanent | Transient

  /** A constructor. Its default parameters call the resolver, one per entry of
      `dependencies`, in declaration order, before the body runs. */
  datatype Implementation = Implementation(name: string, dependencies: seq<Key>)

  /** A recipe. Registering a value directly stores one with no implementation. */
  datatype Resolvable = Resolvable(
    implementation: Option<Implementation>,
    lifetimeScope: LifetimeScope,
    constructorParameters: Option<seq<Value>>)

  /** What a key resolves to. `Datum` is a value the container did not build (a
      primitive or an object supplied from outside); `Object` is one built by a
      constructor: its identity `id`, its class, the arguments it was given and
      the dependencies its default parameters resolved, in order. */
  datatype Value =
    | Datum(text: string)
    | Object(id: nat, implementation: Implementation, parameters: seq<Value>, dependencies: seq<Value>)

  /** `CannotResolve` is the container's own error; `StackOverflow` is the
      engine's error when nested constructions exceed the call stack. */
  datatype Error = CannotResolve(name: string) | StackOverflow

  /** The human-readable name of a key, used in error messages. */
  function KeyName(key: Key): string {
    match key
    case Str(s) => s
    case Type(name, _) => name
  }

  /** The text of the error thrown for a failure. */
  function Message(e: Error): string {
    match e
    case CannotResolve(name) => "Cannot resolve type " + name + "."
    case StackOverflow => "Maximum call stack size exceeded"
  }

  /** The arguments a recipe passes to its constructor: the stored ones, or none. */
  function ArgumentsOf(recipe: Resolvable): seq<Value> {
    match recipe.constructorParameters
    case Some(args) => args
    case None => []
  }

  /** The error text names the key that could not be resolved: two different
      names never give the same message. */
  lemma MessageIdentifiesName(a: string, b: string)
    requires Message(CannotResolve(a)) == Message(CannotResolve(b))
    ensures a == b
  {
    var prefix := "Cannot resolve type ";
    var ma, mb := Message(CannotResolve(a)), Message(CannotResolve(b));
    assert |a| == |b|;
    forall i | 0 <= i < |a| ensures a[i] == b[i] {
      assert ma[|prefix| + i] == a[i];
      assert mb[|prefix| + i] == b[i];
    }
  }
}
