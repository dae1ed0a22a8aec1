/** The dependency descriptor (`Dependency`): a factory together with its
    keyword arguments, each a literal value or a reference to another
    descriptor, and the name under which the descriptor was declared. */
module Descriptor {
  import opened Types
  import opened Cleanup

  /** How an awaited coroutine ends. */
  datatype Completion = Completed(value: Value) | Failed(exception: Value)

  /** What `factory(**kwargs)` does: return a plain value, return a
      coroutine (which ends one way or the other when awaited), or raise. */
  datatype CallResult =
    | Returned(value: Value)
    | ReturnedCoroutine(completion: Completion)
    | RaisedOnCall(exception: Value)

  /** A resource factory. `call` is the outcome of calling it with a kwargs
      map; `onExit` is the cleanup getter that the `on_exit` decorator stores
      on the function under CLEANUP_ATTR_NAME, when it was applied. */
  datatype Factory = Factory(call: map<string, Value> -> CallResult, onExit: Option<Value -> CleanupFn>)

  /** A keyword argument of a descriptor. */
  datatype Arg = Literal(value: Value) | Reference(target: Dependency)

  /** A keyword argument as seen at one moment: a literal, or the current
      `name` of the referenced descriptor. */
  datatype ArgView = LiteralArg(value: Value) | RefArg(name: Option<string>)

  /** A descriptor as seen at one moment. */
  datatype View = View(name: Option<string>, factory: Factory, kwargs: seq<(string, ArgView)>)

  function ViewArg(a: Arg): ArgView
    reads if a.Reference? then {a.target} else {}
  {
    match a
    case Literal(v) => LiteralArg(v)
    case Reference(d) => RefArg(d.name)
  }

  ghost predicate DistinctKeys<T>(s: seq<(string, T)>) {
    forall i, j :: 0 <= i < j < |s| ==> s[i].0 != s[j].0
  }

  /** A reference whose name is missing, or absent from `resolved`. */
  predicate Unbound(a: ArgView, resolved: map<string, Value>) {
    a.RefArg? && (a.name.None? || a.name.value !in resolved)
  }

  /** What an argument passes to the factory. */
  function ArgValue(a: ArgView, resolved: map<string, Value>): Value
    requires !Unbound(a, resolved)
  {
    match a
    case LiteralArg(v) => v
    case RefArg(n) => resolved[n.value]
  }

  /** The kwargs map `resolve` builds: it fails on the first reference
      (in argument order) that `resolved` cannot satisfy. */
  function ResolveArgs(args: seq<(string, ArgView)>, resolved: map<string, Value>, owner: Option<string>): Result<map<string, Value>> {
    if |args| == 0 then Ok(map[])
    else
      var init, last := args[..|args| - 1], args[|args| - 1];
      match ResolveArgs(init, resolved, owner)
      case Err(e) => Err(e)
      case Ok(m) =>
        if Unbound(last.1, resolved) then Err(DependencyNotResolved(last.1.name, owner))
        else Ok(m[last.0 := ArgValue(last.1, resolved)])
  }

  /** The scan succeeds exactly when no argument is unbound, and then
      yields one entry per declared key; otherwise it fails with the first
      unbound reference, naming it and the descriptor that owns it. */
  lemma {:induction false} ResolveArgsOutcome(args: seq<(string, ArgView)>, resolved: map<string, Value>, owner: Option<string>)
    ensures var r := ResolveArgs(args, resolved, owner);
            && (r.Ok? <==> forall i :: 0 <= i < |args| ==> !Unbound(args[i].1, resolved))
            && (r.Ok? ==> r.value.Keys == set i | 0 <= i < |args| :: args[i].0)
            && (r.Err? ==> exists i :: 0 <= i < |args| && Unbound(args[i].1, resolved)
                                       && (forall j :: 0 <= j < i ==> !Unbound(args[j].1, resolved))
                                       && r.error == DependencyNotResolved(args[i].1.name, owner))
  {
    if |args| > 0 {
      var init, last := args[..|args| - 1], args[|args| - 1];
      ResolveArgsOutcome(init, resolved, owner);
      assert forall i :: 0 <= i < |init| ==> init[i] == args[i];
      if ResolveArgs(init, resolved, owner).Ok? && !Unbound(last.1, resolved) {
        assert (set i | 0 <= i < |args| :: args[i].0) == (set i | 0 <= i < |init| :: init[i].0) + {last.0};
      }
    }
  }

  /** Each argument reaches the factory under its own key: a literal as it
      is, a reference as the instance resolved under its name. */
  lemma {:induction false} ResolvedArgValues(args: seq<(string, ArgView)>, resolved: map<string, Value>, owner: Option<string>, i: int)
    requires DistinctKeys(args) && ResolveArgs(args, resolved, owner).Ok? && 0 <= i < |args|
    ensures args[i].0 in ResolveArgs(args, resolved, owner).value && !Unbound(args[i].1, resolved)
    ensures ResolveArgs(args, resolved, owner).value[args[i].0] == ArgValue(args[i].1, resolved)
  {
    var init := args[..|args| - 1];
    assert forall k :: 0 <= k < |init| ==> init[k] == args[k];
    if i < |init| {
      ResolvedArgValues(init, resolved, owner, i);
      assert args[i].0 != args[|args| - 1].0;
    }
  }

  /** Once a prefix of the arguments fails, the whole does, with that error. */
  lemma {:induction false} ResolveArgsFailureSticks(args: seq<(string, ArgView)>, k: int, resolved: map<string, Value>, owner: Option<string>)
    requires 0 <= k <= |args| && ResolveArgs(args[..k], resolved, owner).Err?
    ensures ResolveArgs(args, resolved, owner) == ResolveArgs(args[..k], resolved, owner)
    decreases |args|
  {
    if k < |args| {
      var init := args[..|args| - 1];
      assert init[..k] == args[..k];
      ResolveArgsFailureSticks(init, k, resolved, owner);
    } else {
      assert args[..k] == args;
    }
  }

  /** `if inspect.iscoroutine(result): result = await result`; an exception
      raised by the call or by the coroutine propagates. */
  function Await(c: CallResult): Result<Value> {
    match c
    case Returned(v) => Ok(v)
    case ReturnedCoroutine(Completed(v)) => Ok(v)
    case ReturnedCoroutine(Failed(e)) => Err(Raised(e))
    case RaisedOnCall(e) => Err(Raised(e))
  }

  /** The outcome of `resolve(resolved)` for a descriptor seen as `v`. */
  function ResolveView(v: View, resolved: map<string, Value>): Result<Value> {
    match ResolveArgs(v.kwargs, resolved, v.name)
    case Err(e) => Err(e)
    case Ok(kw) => Await(v.factory.call(kw))
  }

  /** A reference that cannot be satisfied fails the resolution before the
      factory is consulted: whatever the factory, the outcome is the same
      DependencyNotResolved error. */
  lemma UnresolvedReferenceSkipsFactory(v: View, resolved: map<string, Value>, other: Factory)
    requires exists i :: 0 <= i < |v.kwargs| && Unbound(v.kwargs[i].1, resolved)
    ensures ResolveView(v, resolved).Err? && ResolveView(v, resolved).error.DependencyNotResolved?
    ensures ResolveView(v.(factory := other), resolved) == ResolveView(v, resolved)
  {
    ResolveArgsOutcome(v.kwargs, resolved, v.name);
  }

  /** When every reference is satisfied, the outcome is that of calling the
      factory once, with exactly the declared keys, and awaiting a
      coroutine result. */
  lemma ResolveCallsFactory(v: View, resolved: map<string, Value>)
    requires forall i :: 0 <= i < |v.kwargs| ==> !Unbound(v.kwargs[i].1, resolved)
    ensures ResolveArgs(v.kwargs, resolved, v.name).Ok?
    ensures var kw := ResolveArgs(v.kwargs, resolved, v.name).value;
            && kw.Keys == (set i | 0 <= i < |v.kwargs| :: v.kwargs[i].0)
            && ResolveView(v, resolved) == Await(v.factory.call(kw))
  {
    ResolveArgsOutcome(v.kwargs, resolved, v.name);
  }

  class Dependency {
    const factory: Factory
    const kwargs: seq<(string, Arg)>
    var name: Option<string>

    /** `Dependency(factory, **kwargs)`: not yet named. */
    constructor (factory: Factory, kwargs: seq<(string, Arg)>)
      ensures this.factory == factory && this.kwargs == kwargs && name == None
    {
      this.factory := factory;
      this.kwargs := kwargs;
      name := None;
    }

    /** `__set_name__`: Python calls it when the descriptor is bound to a
        class attribute; `owner` is that class, which is not used. */
    method SetName(owner: Value, attribute: string)
      modifies this`name
      ensures name == Some(attribute)
    {
      name := Some(attribute);
    }

    /** The descriptors this one refers to. */
    function Refs(): set<Dependency> {
      set i | 0 <= i < |kwargs| && kwargs[i].1.Reference? :: kwargs[i].1.target
    }

    function ArgsView(): (r: seq<(string, ArgView)>)
      reads Refs()
      ensures |r| == |kwargs|
      ensures forall i :: 0 <= i < |kwargs| ==> r[i] == (kwargs[i].0, ViewArg(kwargs[i].1))
    {
      seq(|kwargs|, i requires 0 <= i < |kwargs| reads Refs() => (kwargs[i].0, ViewArg(kwargs[i].1)))
    }

    function Snapshot(): View
      reads this, Refs()
    {
      View(name, factory, ArgsView())
    }

    /** `resolve`: builds the kwargs map argument by argument, then calls the
        factory once and awaits a coroutine result. It changes nothing. */
    method Resolve(resolved: map<string, Value>) returns (r: Result<Value>)
      ensures r == ResolveView(Snapshot(), resolved)
    {
      ghost var args := ArgsView();
      var resolvedKwargs: map<string, Value> := map[];
      var i := 0;
      while i < |kwargs|
        invariant 0 <= i <= |kwargs|
        invariant ResolveArgs(args[..i], resolved, name) == Ok(resolvedKwargs)
      {
        var (key, value) := kwargs[i];
        assert args[..i + 1][..i] == args[..i];
        if value.Literal? {
          resolvedKwargs := resolvedKwargs[key := value.value];
        } else {
          if value.target.name.None? || value.target.name.value !in resolved {
            ResolveArgsFailureSticks(args, i + 1, resolved, name);
            return Err(DependencyNotResolved(value.target.name, name));
          }
          resolvedKwargs := resolvedKwargs[key := resolved[value.target.name.value]];
        }
        i := i + 1;
      }
      assert args[..|kwargs|] == args;
      var result := factory.call(resolvedKwargs);
      r := Await(result);
    }
  }

  /** The descriptors of a dict and every descriptor they refer to. */
  function Footprint(deps: OrderedDict<Dependency>): set<Dependency> {
    (set n | n in deps.entries :: deps.entries[n])
    + (set n, t | n in deps.entries && t in deps.entries[n].Refs() :: t)
  }

  /** Every descriptor of a dict as seen at one moment. */
  function ViewsOf(deps: OrderedDict<Dependency>): (views: map<string, View>)
    reads Footprint(deps)
    ensures views.Keys == deps.entries.Keys
  {
    map n | n in deps.entries :: deps.entries[n].Snapshot()
  }
}
