/** `AsyncExitStackContainer` (the package's `container` subpackage): an
    async context manager that holds an exit stack while it is entered. */
module AsyncContainer {
  import opened Types
  import opened Cleanup
  import opened Descriptor
  import opened ResolutionOrder
  import opened ExitStack
  import opened Lifecycle
  import opened ContainerBase

  /** Sets `settings` and then every resolved name on a fresh instance of
      the resources class. */
  method AssembleResources(cls: Value, settings: Value, resolved: OrderedDict<Value>) returns (resources: Resources)
    requires resolved.Valid()
    ensures resources == Resources(cls, Bundle(settings, resolved))
  {
    var fields := map["settings" := settings];
    for k := 0 to |resolved.keys|
      invariant forall n :: n in fields <==> n == "settings" || n in resolved.keys[..k]
      invariant forall n :: n in fields ==> fields[n] == if n in resolved.keys[..k] then resolved.entries[n] else settings
    {
      var name := resolved.keys[k];
      assert resolved.keys[..k + 1] == resolved.keys[..k] + [name];
      fields := fields[name := resolved.entries[name]];
    }
    assert resolved.keys[..|resolved.keys|] == resolved.keys;
    assert fields == Bundle(settings, resolved);
    resources := Resources(cls, fields);
  }

  /** The loop of `__aenter__` over the descriptors `deps`: for each name of
      the order, look the descriptor up, resolve it against the instances
      so far, record the instance, and push its cleanup when the factory is
      marked. */
  method ResolveAlong(names: seq<string>, deps: OrderedDict<Dependency>, exitStack: AsyncExitStack) returns (resolved: OrderedDict<Value>, failure: Option<Error>)
    requires exitStack.callbacks == []
    requires forall n :: n in names ==> n in deps.entries
    modifies exitStack
    ensures resolved.Valid()
    ensures Covers(names, old(ViewsOf(deps)))
    ensures RunSteps(names, old(ViewsOf(deps))) == EnterState(resolved, exitStack.callbacks, failure)
  {
    ghost var views := ViewsOf(deps);
    resolved := EmptyDict();
    for i := 0 to |names|
      invariant resolved.Valid()
      invariant Covers(names[..i], views)
      invariant RunSteps(names[..i], views) == EnterState(resolved, exitStack.callbacks, None)
    {
      var name := names[i];
      RunStepsNext(names, i, views);
      var dependency := deps.entries[name];
      var instance := dependency.Resolve(resolved.entries);
      ViewsUnchanged(deps);
      assert instance == ResolveView(views[name], resolved.entries) && views[name].factory == dependency.factory;
      if instance.Err? {
        FailureSticks(names, i + 1, views);
        return resolved, Some(instance.error);
      }
      resolved := resolved.Set(name, instance.value);
      if dependency.factory.onExit.Some? {
        var cleanup := MakeCleanup(dependency.factory.onExit.value(instance.value));
        exitStack.PushAsyncCallback(cleanup);
      }
    }
    assert names[..|names|] == names;
    failure := None;
  }

  class AsyncExitStackContainer {
    /** The `AbstractContainer` part of the instance. */
    const base: AbstractContainer
    /** `_settings`, which the container class is expected to bind; None
        when it only annotates it. */
    const settings: Option<Value>
    /** `_stack`: held from a successful guard until exit. */
    var stack: AsyncExitStack?

    ghost predicate Valid()
      reads this, base
    {
      base.Valid()
    }

    constructor (namespace: OrderedDict<Attr>, resourcesType: Result<Value>, settings: Option<Value>)
      requires namespace.Valid()
      requires resourcesType.Err? ==> resourcesType.error == InvalidContainerInheritance
      ensures Valid() && fresh(base)
      ensures base.namespace == namespace && base.resourcesType == resourcesType && this.settings == settings
      ensures base.resourcesClass == None && base.dependencies == EmptyDict() && base.resolutionOrder == []
      ensures stack == null
    {
      base := new AbstractContainer(namespace, resourcesType);
      this.settings := settings;
      stack := null;
    }

    /** `__aenter__`. While a stack is held it raises ContainerReuseError
        and changes nothing. Otherwise it holds a fresh stack, takes the
        resolution order and enters along it (EnterWith). An error ends it
        with the stack still held: the cleanups pushed so far stay on it.
        `order` is the resolution order it used. Afterwards the dict of
        descriptors is cached, the order is cached when the sort succeeded,
        and the resources class once the loop got that far and found it. */
    method Aenter() returns (r: Result<Resources>, ghost order: Result<seq<string>>)
      requires Valid()
      modifies this, base
      ensures Valid()
      ensures old(stack) != null ==> r == Err(ContainerReuse) && stack == old(stack) && unchanged(base)
      ensures old(stack) == null ==>
                && stack != null && fresh(stack)
                && (old(base.resolutionOrder) != [] ==> order == Ok(old(base.resolutionOrder)))
                && (old(base.resolutionOrder) == [] ==> SortOutcome(old(GraphOf(DescriptorsOf(base.namespace))), order))
                && (order.Err? ==> r == Err(order.error) && stack.callbacks == [])
                && (order.Ok? ==>
                      && Distinct(order.value)
                      && Covers(order.value, old(ViewsOf(DescriptorsOf(base.namespace))))
                      && (r, stack.callbacks) == EnterOutcome(order.value, old(ViewsOf(DescriptorsOf(base.namespace))), base.resourcesType, settings))
                && base.dependencies == DescriptorsOf(base.namespace)
                && base.resolutionOrder == (if order.Ok? then order.value else [])
                && base.resourcesClass ==
                     if order.Ok? && RunSteps(order.value, old(ViewsOf(DescriptorsOf(base.namespace)))).failure.None? && base.resourcesType.Ok?
                     then Some(base.resourcesType.value) else old(base.resourcesClass)
    {
      if stack != null {
        order := Err(ContainerReuse);
        return Err(ContainerReuse), order;
      }
      ghost var descriptors := DescriptorsOf(base.namespace);
      var exitStack := new AsyncExitStack();
      stack := exitStack;
      ViewsUnchanged(descriptors);
      label held:
      var names := base.ResolutionOrder();
      order := names;
      ViewsUnchanged@held(descriptors);
      if names.Err? {
        return Err(names.error), order;
      }
      r := EnterWith(names.value, exitStack);
    }

    /** The rest of `__aenter__` once the stack is fresh and the order is
        known: resolve along the order, then build the resources object.
        The order stays cached; the dict is cached, and so is the resources
        class when the loop ended without error and the class was found. */
    method EnterWith(names: seq<string>, exitStack: AsyncExitStack) returns (r: Result<Resources>)
      requires base.Valid() && exitStack.callbacks == []
      requires forall n :: n in names ==> n in DescriptorsOf(base.namespace).entries
      modifies base, exitStack
      ensures base.Valid()
      ensures Covers(names, old(ViewsOf(DescriptorsOf(base.namespace))))
      ensures (r, exitStack.callbacks) == EnterOutcome(names, old(ViewsOf(DescriptorsOf(base.namespace))), base.resourcesType, settings)
      ensures base.dependencies == DescriptorsOf(base.namespace)
      ensures base.resolutionOrder == old(base.resolutionOrder) && base.sortedGraph == old(base.sortedGraph)
      ensures base.resourcesClass ==
                if RunSteps(names, old(ViewsOf(DescriptorsOf(base.namespace)))).failure.None? && base.resourcesType.Ok?
                then Some(base.resourcesType.value) else old(base.resourcesClass)
    {
      var deps := base.Dependencies();
      ViewsUnchanged(deps);
      var resolved, failure := ResolveAlong(names, deps, exitStack);
      if failure.Some? {
        return Err(failure.value);
      }
      var cls := base.ResourcesClass();
      if cls.Err? {
        return Err(cls.error);
      }
      if settings.None? {
        return Err(AttributeUnbound("_settings"));
      }
      var resources := AssembleResources(cls.value, settings.value, resolved);
      r := Ok(resources);
    }

    /** `__aexit__`: with a stack held, unwinds it and drops it; without one,
        does nothing, so a second exit is a no-op. */
    method Aexit() returns (effects: seq<Effect>)
      modifies this, stack
      ensures stack == null
      ensures old(stack) == null ==> effects == []
      ensures old(stack) != null ==> effects == Unwind(old(stack.callbacks)) && old(stack).callbacks == []
    {
      if stack != null {
        effects := stack.Aexit();
        stack := null;
      } else {
        effects := [];
      }
    }
  }
}
