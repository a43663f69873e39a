/**
 * Container.php: a service container over two maps, bindings (a factory and
 * a `shared` flag) and instances. `make` looks at instances first, then
 * bindings, then falls back to constructing the class with no arguments,
 * and otherwise fails.
 */
module Containers {
  import opened Php

  /** A factory closure, by what it does when called: construct a new
      object of a class, return a fixed value, or throw. */
  datatype Factory = Construct(cls: string) | Provide(v: Value) | Fail(e: Throwable)

  datatype Binding = Binding(factory: Factory, shared: bool)

  /** The container's maps, and how many objects have been created so far
      (the identity the next new object gets). */
  datatype State = State(bindings: map<string, Binding>, instances: map<string, Value>, created: nat)

  /** `isset($instances[$id])`. */
  predicate HasInstance(s: State, id: string) {
    id in s.instances && s.instances[id] != Null
  }

  /** `has($id)`: a set instance or a binding. */
  predicate Has(s: State, id: string) {
    HasInstance(s, id) || id in s.bindings
  }

  function BindingNotFound(id: string): (e: Throwable)
    ensures e.InstanceOf("Exception")
  {
    NewException("Binding [" + id + "] not found in container")
  }

  /** The container's not-found exception (an `\Exception`). */
  function NotFound(id: string): (e: Throwable)
    ensures e.InstanceOf("Exception")
  {
    Throwable("Alphavel\\Core\\Exceptions\\NotFoundException", {"Exception", "Throwable"},
              "Entry '" + id + "' not found in container", None, "", 0, "")
  }

  /** The container's wrapping exception (an `\Exception`). */
  function Wrapped(id: string, cause: Throwable): (e: Throwable)
    ensures e.InstanceOf("Exception")
  {
    Throwable("Alphavel\\Core\\Exceptions\\ContainerException", {"Exception", "Throwable"},
              "Error while retrieving entry '" + id + "': " + cause.message, None, "", 0, "")
  }

  /** `new $cls()`: the new object or what its constructor throws, and the
      new allocation count. */
  function New(classes: ClassTable, cls: string, created: nat): (Outcome<Value>, nat)
  {
    if cls !in classes then (Thrown(NewError("Class \"" + cls + "\" not found")), created)
    else match classes[cls]
      case Done(c) => (Done(Obj(c, created, map[], None)), created + 1)
      case Thrown(e) => (Thrown(e), created)
  }

  /** Calling a factory: its result and the new allocation count. */
  function Produce(f: Factory, classes: ClassTable, created: nat): (Outcome<Value>, nat)
  {
    match f
    case Construct(cls) => New(classes, cls, created)
    case Provide(v) => (Done(v), created)
    case Fail(e) => (Thrown(e), created)
  }

  /** `make($id)`: the result and the container state afterwards. */
  function MakeStep(s: State, classes: ClassTable, id: string): (r: (Outcome<Value>, State))
    ensures HasInstance(s, id) ==> r == (Done(s.instances[id]), s)
    ensures r.1.bindings == s.bindings && r.1.created >= s.created
    ensures r.1.instances == s.instances
      || (id in s.bindings && s.bindings[id].shared && r.0.Done? && r.1.instances == s.instances[id := r.0.value])
    ensures !HasInstance(s, id) && id !in s.bindings && id !in classes ==> r == (Thrown(BindingNotFound(id)), s)
  {
    if HasInstance(s, id) then (Done(s.instances[id]), s)
    else if id !in s.bindings then
      if id in classes then
        var (o, n) := New(classes, id, s.created);
        (o, s.(created := n))
      else (Thrown(BindingNotFound(id)), s)
    else
      var b := s.bindings[id];
      var (o, n) := Produce(b.factory, classes, s.created);
      match o
      case Thrown(e) => (Thrown(e), s.(created := n))
      case Done(v) =>
        (Done(v), if b.shared then s.(instances := s.instances[id := v], created := n) else s.(created := n))
  }

  /** `get($id)`: not-found unless `has`, and exceptions (not errors) from
      `make` wrapped. */
  function GetStep(s: State, classes: ClassTable, id: string): (r: (Outcome<Value>, State))
    ensures !Has(s, id) ==> r == (Thrown(NotFound(id)), s)
    ensures Has(s, id) ==> r.1 == MakeStep(s, classes, id).1
    ensures r.0.Thrown? && r.0.error.InstanceOf("Exception") ==>
      var made := MakeStep(s, classes, id).0;
      r.0.error == NotFound(id) || (made.Thrown? && r.0.error == Wrapped(id, made.error))
    ensures r.0.Done? ==> r.0 == MakeStep(s, classes, id).0
  {
    if !Has(s, id) then (Thrown(NotFound(id)), s)
    else
      var (o, s') := MakeStep(s, classes, id);
      if o.Thrown? && o.error.InstanceOf("Exception") then (Thrown(Wrapped(id, o.error)), s')
      else (o, s')
  }

  class Container {
    const classes: ClassTable
    var bindings: map<string, Binding>
    var instances: map<string, Value>
    var created: nat

    constructor(classes: ClassTable)
      ensures this.classes == classes && bindings == map[] && instances == map[] && created == 0
    {
      this.classes := classes;
      bindings, instances, created := map[], map[], 0;
    }

    function Current(): State
      reads this
    {
      State(bindings, instances, created)
    }

    /** `bind($id, $factory)`: a transient binding, replacing any earlier
        one. */
    method Bind(id: string, f: Factory)
      modifies this
      ensures Current() == old(Current()).(bindings := old(bindings)[id := Binding(f, false)])
    {
      bindings := bindings[id := Binding(f, false)];
    }

    /** `singleton($id, $factory)`: a shared binding, replacing any earlier
        one. */
    method Singleton(id: string, f: Factory)
      modifies this
      ensures Current() == old(Current()).(bindings := old(bindings)[id := Binding(f, true)])
    {
      bindings := bindings[id := Binding(f, true)];
    }

    /** `instance($id, $value)`: stored as given, null included. */
    method Instance(id: string, v: Value)
      modifies this
      ensures Current() == old(Current()).(instances := old(instances)[id := v])
    {
      instances := instances[id := v];
    }

    method Make(id: string) returns (r: Outcome<Value>)
      modifies this
      ensures (r, Current()) == MakeStep(old(Current()), classes, id)
    {
      if id in instances && instances[id] != Null {
        return Done(instances[id]);
      }
      if id !in bindings {
        if id in classes {
          var (o, n) := New(classes, id, created);
          r, created := o, n;
          return;
        }
        return Thrown(BindingNotFound(id));
      }
      var b := bindings[id];
      var (o, n) := Produce(b.factory, classes, created);
      created := n;
      if o.Done? && b.shared {
        instances := instances[id := o.value];
      }
      r := o;
    }

    function HasEntry(id: string): (r: bool)
      reads this
      ensures r <==> Has(Current(), id)
    {
      (id in instances && instances[id] != Null) || id in bindings
    }

    method Get(id: string) returns (r: Outcome<Value>)
      modifies this
      ensures (r, Current()) == GetStep(old(Current()), classes, id)
    {
      if !HasEntry(id) {
        return Thrown(NotFound(id));
      }
      r := Make(id);
      if r.Thrown? && r.error.InstanceOf("Exception") {
        r := Thrown(Wrapped(id, r.error));
      }
    }
  }

  /** A set instance is returned before bindings are consulted, so binding
      the id again changes nothing `make` returns. */
  lemma InstanceFirst(s: State, classes: ClassTable, id: string, b: Binding)
    requires HasInstance(s, id)
    ensures MakeStep(s, classes, id) == (Done(s.instances[id]), s)
    ensures MakeStep(s.(bindings := s.bindings[id := b]), classes, id).0 == MakeStep(s, classes, id).0
  {
  }

  /** A singleton's factory runs on the first `make` only: when it gives a
      non-null value, that value is stored and every later `make` returns it
      without running the factory. */
  lemma SingletonMemoised(s: State, classes: ClassTable, id: string)
    requires !HasInstance(s, id) && id in s.bindings && s.bindings[id].shared
    requires MakeStep(s, classes, id).0.Done? && MakeStep(s, classes, id).0.value != Null
    ensures var (o1, s1) := MakeStep(s, classes, id);
      s1.instances == s.instances[id := o1.value]
      && MakeStep(s1, classes, id) == (o1, s1)
  {
  }

  /** A transient binding that constructs runs on every `make`: when the
      constructor returns, two calls give two distinct objects and store
      nothing. */
  lemma TransientFresh(s: State, classes: ClassTable, id: string)
    requires !HasInstance(s, id) && id in s.bindings && !s.bindings[id].shared
    requires s.bindings[id].factory.Construct?
    requires var c := s.bindings[id].factory.cls; c in classes && classes[c].Done?
    ensures var (o1, s1) := MakeStep(s, classes, id);
      var (o2, s2) := MakeStep(s1, classes, id);
      o1.Done? && o2.Done? && o1.value != o2.value && s2.instances == s.instances
  {
  }

  /** With no instance and no binding, an existing class whose constructor
      returns is constructed afresh on every `make` and never cached. */
  lemma FallbackFresh(s: State, classes: ClassTable, id: string)
    requires !HasInstance(s, id) && id !in s.bindings && id in classes && classes[id].Done?
    ensures var (o1, s1) := MakeStep(s, classes, id);
      var (o2, s2) := MakeStep(s1, classes, id);
      o1.Done? && o2.Done? && o1.value.Obj? && o1.value.cls == classes[id].value
      && o1.value != o2.value && s2.instances == s.instances
  {
  }

  /** With no instance and no binding, a class whose constructor throws
      (one that needs arguments, say) makes `make` throw the same and change
      nothing. */
  lemma FallbackConstructorThrows(s: State, classes: ClassTable, id: string)
    requires !HasInstance(s, id) && id !in s.bindings && id in classes && classes[id].Thrown?
    ensures MakeStep(s, classes, id) == (Thrown(classes[id].error), s)
  {
  }

  /** A binding whose factory constructs a class that needs arguments makes
      `get` fail with the `ArgumentCountError` itself: it is an error, not an
      exception, so it is not wrapped. */
  lemma GetArgumentCountError(s: State, classes: ClassTable, id: string, cls: string, message: string)
    requires !HasInstance(s, id) && id in s.bindings && s.bindings[id].factory == Construct(cls)
    requires cls in classes && classes[cls] == Thrown(NewArgumentCountError(message))
    ensures GetStep(s, classes, id) == (Thrown(NewArgumentCountError(message)), s)
  {
  }

  /** With no instance, no binding and no such class, `make` fails with
      "Binding [id] not found in container" and changes nothing. */
  lemma MissingFails(s: State, classes: ClassTable, id: string)
    requires !HasInstance(s, id) && id !in s.bindings && id !in classes
    ensures MakeStep(s, classes, id) == (Thrown(BindingNotFound(id)), s)
    ensures MakeStep(s, classes, id).0.error.message == "Binding [" + id + "] not found in container"
  {
  }

  /** An instance registered as null counts as absent for `has` and `make`. */
  lemma NullInstanceAbsent(s: State, classes: ClassTable, id: string)
    requires id in s.instances && s.instances[id] == Null
    ensures Has(s, id) <==> id in s.bindings
    ensures MakeStep(s, classes, id).0 == MakeStep(s.(instances := s.instances - {id}), classes, id).0
  {
  }

  /** `get` refuses anything `has` does not report, even a class `make`
      could construct; an exception from `make` comes back wrapped with the
      id and its message, while an error passes through unchanged. */
  lemma GetCases(s: State, classes: ClassTable, id: string)
    ensures !Has(s, id) ==> GetStep(s, classes, id) == (Thrown(NotFound(id)), s)
    ensures Has(s, id) && MakeStep(s, classes, id).0.Thrown? ==>
      var e := MakeStep(s, classes, id).0.error;
      GetStep(s, classes, id).0
      == Thrown(if e.InstanceOf("Exception") then Wrapped(id, e) else e)
    ensures Has(s, id) && MakeStep(s, classes, id).0.Done? ==> GetStep(s, classes, id) == MakeStep(s, classes, id)
  {
  }
}
