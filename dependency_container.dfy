/** The service registry: a dictionary from a name to the object registered under it, kept in a
    plain JavaScript object. */
module DependencyContainer {
  import opened Docs

  /** The names every plain object inherits from `Object.prototype`. Reading one of them from the
      dictionary without an own entry yields the inherited function (or, for `__proto__`, the
      prototype object), which is truthy. */
  predicate Inherited(name: string)
  {
    name in {"constructor", "hasOwnProperty", "isPrototypeOf", "propertyIsEnumerable",
      "toLocaleString", "toString", "valueOf", "__proto__", "__defineGetter__",
      "__defineSetter__", "__lookupGetter__", "__lookupSetter__"}
  }

  /** `this.dependencies[name]`: the own entry, else the inherited member, else undefined. */
  function Property(dependencies: map<string, Value>, name: string): (r: Value)
    ensures name in dependencies ==> r == dependencies[name]
    ensures name !in dependencies && Inherited(name) ==> Truthy(r)
    ensures name !in dependencies && !Inherited(name) ==> r == Undefined
  {
    if name in dependencies then dependencies[name]
    else if Inherited(name) then Obj("Object.prototype." + name)
    else Undefined
  }

  /** The outcome of `getDependency(name)`: the value, or the error it throws with this message. */
  datatype Resolution = Resolved(value: Value) | NotRegistered(message: string)

  function NotRegisteredMessage(name: string): string
  {
    "Dependency \"" + name + "\" is not registered."
  }

  /** `getDependency(name)` as written: it throws when the dictionary read is falsy, and otherwise
      returns what it read, so an inherited member is returned as if it had been registered. */
  function Resolve(dependencies: map<string, Value>, name: string): (r: Resolution)
    ensures r.Resolved? <==> Truthy(Property(dependencies, name))
    ensures r.Resolved? ==> r.value == Property(dependencies, name)
    ensures r.NotRegistered? ==> r.message == NotRegisteredMessage(name)
  {
    var dependency := Property(dependencies, name);
    if !Truthy(dependency) then NotRegistered(NotRegisteredMessage(name)) else Resolved(dependency)
  }

  /** The name "toString" was never registered, yet an empty container returns the inherited
      method instead of throwing. */
  lemma InheritedNameResolves()
    ensures Resolve(map[], "toString") == Resolved(Obj("Object.prototype.toString"))
  {
    assert Inherited("toString");
  }

  /** `getDependency(name)` as evidently intended: only an own entry that is truthy is returned. */
  function ResolveOwn(dependencies: map<string, Value>, name: string): (r: Resolution)
    ensures r.Resolved? <==> name in dependencies && Truthy(dependencies[name])
    ensures r.Resolved? ==> r.value == dependencies[name]
    ensures r.NotRegistered? ==> r.message == NotRegisteredMessage(name)
  {
    if name in dependencies && Truthy(dependencies[name]) then Resolved(dependencies[name])
    else NotRegistered(NotRegisteredMessage(name))
  }

  /** The two agree on every registered name and every name `Object.prototype` does not define. */
  lemma ResolveAgreesOutsidePrototype(dependencies: map<string, Value>, name: string)
    requires name in dependencies || !Inherited(name)
    ensures Resolve(dependencies, name) == ResolveOwn(dependencies, name)
  {
  }

  /** The container. Its dictionary is modelled by its own entries; inherited names are added by
      the lookup. */
  class Container {
    var dependencies: map<string, Value>

    /** A new container has no registrations. */
    constructor ()
      ensures dependencies == map[]
    {
      dependencies := map[];
    }

    /** `register(name, dependency)`: the name now holds the new value, replacing any earlier one;
        every other name keeps its value. */
    method Register(name: string, dependency: Value)
      modifies this
      ensures dependencies == old(dependencies)[name := dependency]
    {
      dependencies := dependencies[name := dependency];
    }

    /** `getDependency(name)`, using the corrected own-entry lookup. */
    method GetDependency(name: string) returns (r: Resolution)
      ensures r == ResolveOwn(dependencies, name)
    {
      if name !in dependencies || !Truthy(dependencies[name]) {
        return NotRegistered(NotRegisteredMessage(name));
      }
      r := Resolved(dependencies[name]);
    }
  }

  /** After registering a truthy value under a name, the lookup returns that value; a falsy one
      (null, 0, "", false, undefined) makes the lookup throw as if nothing were registered. */
  lemma RegisterThenResolve(dependencies: map<string, Value>, name: string, dependency: Value)
    ensures Truthy(dependency) ==> ResolveOwn(dependencies[name := dependency], name) == Resolved(dependency)
    ensures !Truthy(dependency) ==> ResolveOwn(dependencies[name := dependency], name) == NotRegistered(NotRegisteredMessage(name))
    ensures Truthy(dependency) ==> Resolve(dependencies[name := dependency], name) == Resolved(dependency)
    ensures !Truthy(dependency) ==> Resolve(dependencies[name := dependency], name).NotRegistered?
  {
  }

  /** Registering one name changes the lookup of no other name. */
  lemma RegisterKeepsOthers(dependencies: map<string, Value>, name: string, other: string, dependency: Value)
    requires other != name
    ensures ResolveOwn(dependencies[name := dependency], other) == ResolveOwn(dependencies, other)
    ensures Resolve(dependencies[name := dependency], other) == Resolve(dependencies, other)
  {
  }

  /** With the corrected lookup a new container throws for every name; as written it throws for
      every name except those `Object.prototype` defines. */
  lemma EmptyContainerResolvesNothing(name: string)
    ensures ResolveOwn(map[], name) == NotRegistered(NotRegisteredMessage(name))
    ensures Resolve(map[], name).NotRegistered? <==> !Inherited(name)
  {
  }
}
