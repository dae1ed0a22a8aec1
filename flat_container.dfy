/** The single-module `AsyncExitStackContainer` (`exit_stack_container/container.py`):
    the same container in one class, whose `dependencies` property also
    computes the resolution order when it scans. */
module FlatContainer {
  import opened Types
  import opened Cleanup
  import opened Descriptor
  import opened ResolutionOrder
  import opened ExitStack
  import opened Lifecycle
  import opened ContainerBase
  import opened AsyncContainer

  class AsyncExitStackContainer {
    /** `vars(self.__class__)`: the attributes the container class defines. */
    const namespace: OrderedDict<Attr>
    /** What `_extract_resources_class()` gives for this class. */
    const resourcesType: Result<Value>
    /** `_settings`, which the container class is expected to bind; None
        when it only annotates it. */
    const settings: Option<Value>
    /** `_resources_class`, `_dependencies`, `_resolution_order`. */
    var resourcesClass: Option<Value>
    var dependencies: OrderedDict<Dependency>
    var resolutionOrder: seq<string>
    /** The graph that the cached order was sorted from. */
    ghost var sortedGraph: Graph
    /** `_stack`: held from a successful guard until exit. */
    var stack: AsyncExitStack?

    /** The caches hold nothing yet or what they cache, and an order is only
        ever cached together with the dict it was computed from. */
    ghost predicate Valid()
      reads this
    {
      && CachesValid(namespace, resourcesType, resourcesClass, dependencies, resolutionOrder, sortedGraph)
      && (resolutionOrder != [] ==> dependencies == DescriptorsOf(namespace))
    }

    /** `__init__`: every cache starts empty, and no stack is held. */
    constructor (namespace: OrderedDict<Attr>, resourcesType: Result<Value>, settings: Option<Value>)
      requires namespace.Valid()
      requires resourcesType.Err? ==> resourcesType.error == InvalidContainerInheritance
      ensures Valid()
      ensures this.namespace == namespace && this.resourcesType == resourcesType && this.settings == settings
      ensures resourcesClass == None && dependencies == EmptyDict() && resolutionOrder == []
      ensures stack == null
    {
      this.namespace := namespace;
      this.resourcesType := resourcesType;
      this.settings := settings;
      resourcesClass := None;
      dependencies := EmptyDict();
      resolutionOrder := [];
      stack := null;
    }

    /** The `resources_class` property: extracted on first use and cached;
        a failed extraction raises and caches nothing. */
    method ResourcesClass() returns (r: Result<Value>)
      requires Valid()
      modifies this`resourcesClass
      ensures Valid()
      ensures r == resourcesType
      ensures resourcesClass == (if r.Ok? then Some(r.value) else None)
    {
      if resourcesClass.None? {
        var cls :- resourcesType;
        resourcesClass := Some(cls);
      }
      r := Ok(resourcesClass.value);
    }

    /** The `dependencies` property. While the cache is empty it scans the
        class, caches the dict, and then sorts it into `_resolution_order`;
        a failed sort raises after the dict was cached. */
    method Dependencies() returns (r: Result<OrderedDict<Dependency>>)
      requires Valid()
      modifies this`dependencies, this`resolutionOrder, this`sortedGraph
      ensures Valid()
      ensures old(dependencies.keys) != [] ==> r == Ok(old(dependencies)) && unchanged(this)
      ensures old(dependencies.keys) == [] ==>
                && dependencies == DescriptorsOf(namespace)
                && (r.Ok? ==> SortOutcome(GraphOf(DescriptorsOf(namespace)), Ok(resolutionOrder)) && sortedGraph == GraphOf(DescriptorsOf(namespace)))
                && (r.Err? ==> SortOutcome(GraphOf(DescriptorsOf(namespace)), Err(r.error)) && resolutionOrder == old(resolutionOrder))
      ensures r.Ok? ==> r.value == DescriptorsOf(namespace) && dependencies == r.value
    {
      if dependencies.keys == [] {
        var scanned := ScanDependencies(namespace);
        dependencies := scanned;
        DescriptorsOfSelects(namespace);
        var order := MakeResolutionOrder(scanned);
        if order.Err? {
          return Err(order.error);
        }
        OrderCoversDescriptors(scanned, order.value);
        ghost var graph := GraphOf(scanned);
        CachesValidWithOrder(namespace, resourcesType, resourcesClass, dependencies, resolutionOrder, sortedGraph, order.value, graph);
        label sorted:
        resolutionOrder := order.value;
        sortedGraph := graph;
        ViewsUnchanged@sorted(scanned);
      }
      r := Ok(dependencies);
    }

    /** The `resolution_order` property: while the cache is empty it reads
        `dependencies` (which may itself sort, or raise) and sorts that
        dict; a failed sort raises and caches nothing. */
    method ResolutionOrder() returns (r: Result<seq<string>>)
      requires Valid()
      modifies this`dependencies, this`resolutionOrder, this`sortedGraph
      ensures Valid()
      ensures old(resolutionOrder) != [] ==> r == Ok(old(resolutionOrder)) && unchanged(this)
      ensures old(resolutionOrder) == [] ==>
                && dependencies == DescriptorsOf(namespace)
                && SortOutcome(GraphOf(DescriptorsOf(namespace)), r)
                && resolutionOrder == (if r.Ok? then r.value else [])
      ensures r.Ok? ==> Distinct(r.value) && forall n :: n in r.value <==> n in DescriptorsOf(namespace).entries
      ensures r.Ok? ==> resolutionOrder == r.value
    {
      if resolutionOrder == [] {
        var deps :- Dependencies();
        r := CacheOrder(deps);
      } else {
        r := Ok(resolutionOrder);
      }
    }

    /** The assignment in `resolution_order`: sorts the fetched dict and
        caches a successful order. The dict may have been sorted already by
        `dependencies`, to the same outcome. */
    method CacheOrder(deps: OrderedDict<Dependency>) returns (r: Result<seq<string>>)
      requires Valid() && deps == DescriptorsOf(namespace) && dependencies == deps
      requires resolutionOrder != [] ==> SortOutcome(GraphOf(deps), Ok(resolutionOrder))
      modifies this`resolutionOrder, this`sortedGraph
      ensures Valid()
      ensures SortOutcome(GraphOf(deps), r)
      ensures resolutionOrder == (if r.Ok? then r.value else [])
      ensures r.Ok? ==> sortedGraph == GraphOf(deps)
      ensures r.Ok? ==> Distinct(r.value) && forall n :: n in r.value <==> n in deps.entries
    {
      ghost var graph := GraphOf(deps);
      DescriptorsOfSelects(namespace);
      label fetched:
      r := MakeResolutionOrder(deps);
      ViewsUnchanged@fetched(deps);
      if r.Ok? {
        OrderCoversDescriptors(deps, r.value);
        CachesValidWithOrder(namespace, resourcesType, resourcesClass, dependencies, resolutionOrder, sortedGraph, r.value, graph);
        resolutionOrder := r.value;
        sortedGraph := graph;
      } else if resolutionOrder != [] {
        // `dependencies` sorted the same dict, and the sort decides alike.
        OutcomeDecidesOrder(graph, r);
        OutcomeDecidesOrder(graph, Ok(resolutionOrder));
        assert false;
      }
      ViewsUnchanged(deps);
    }

    /** `__aenter__`. While a stack is held it raises ContainerReuseError
        and changes nothing. Otherwise it holds a fresh stack, takes the
        resolution order and enters along it (EnterWith). An error ends it
        with the stack still held. `order` is the resolution order it used.
        Afterwards the dict of descriptors is cached, the order is cached
        when the sort succeeded, and the resources class once the loop got
        that far and found it. */
    method Aenter() returns (r: Result<Resources>, ghost order: Result<seq<string>>)
      requires Valid()
      modifies this
      ensures Valid()
      ensures old(stack) != null ==> r == Err(ContainerReuse) && unchanged(this)
      ensures old(stack) == null ==>
                && stack != null && fresh(stack)
                && (old(resolutionOrder) != [] ==> order == Ok(old(resolutionOrder)))
                && (old(resolutionOrder) == [] ==> SortOutcome(old(GraphOf(DescriptorsOf(namespace))), order))
                && (order.Err? ==> r == Err(order.error) && stack.callbacks == [])
                && (order.Ok? ==>
                      && Distinct(order.value)
                      && Covers(order.value, old(ViewsOf(DescriptorsOf(namespace))))
                      && (r, stack.callbacks) == EnterOutcome(order.value, old(ViewsOf(DescriptorsOf(namespace))), resourcesType, settings))
                && dependencies == DescriptorsOf(namespace)
                && resolutionOrder == (if order.Ok? then order.value else [])
                && resourcesClass ==
                     if order.Ok? && RunSteps(order.value, old(ViewsOf(DescriptorsOf(namespace)))).failure.None? && resourcesType.Ok?
                     then Some(resourcesType.value) else old(resourcesClass)
    {
      if stack != null {
        order := Err(ContainerReuse);
        return Err(ContainerReuse), order;
      }
      ghost var descriptors := DescriptorsOf(namespace);
      var exitStack := new AsyncExitStack();
      stack := exitStack;
      ViewsUnchanged(descriptors);
      label held:
      var names := ResolutionOrder();
      order := names;
      ViewsUnchanged@held(descriptors);
      if names.Err? {
        return Err(names.error), order;
      }
      r := EnterWith(names.value, exitStack);
    }

    /** The rest of `__aenter__` once the stack is fresh and the order is
        known: read `dependencies` (a cache hit, or a rescan of a class
        without descriptors), resolve along the order, then build the
        resources object. The caches keep the dict and the order; the
        resources class is cached when the loop ended without error and the
        class was found. */
    method EnterWith(names: seq<string>, exitStack: AsyncExitStack) returns (r: Result<Resources>)
      requires Valid() && exitStack.callbacks == []
      requires dependencies == DescriptorsOf(namespace)
      requires names == resolutionOrder
      requires forall n :: n in names ==> n in DescriptorsOf(namespace).entries
      modifies this`dependencies, this`resolutionOrder, this`sortedGraph, this`resourcesClass, exitStack
      ensures Valid()
      ensures Covers(names, old(ViewsOf(DescriptorsOf(namespace))))
      ensures (r, exitStack.callbacks) == EnterOutcome(names, old(ViewsOf(DescriptorsOf(namespace))), resourcesType, settings)
      ensures dependencies == DescriptorsOf(namespace)
      ensures resolutionOrder == names
      ensures resourcesClass ==
                if RunSteps(names, old(ViewsOf(DescriptorsOf(namespace)))).failure.None? && resourcesType.Ok?
                then Some(resourcesType.value) else old(resourcesClass)
    {
      ghost var descriptors := DescriptorsOf(namespace);
      var deps := CachedDependencies();
      ViewsUnchanged(descriptors);
      var resolved, failure := ResolveAlong(names, deps, exitStack);
      if failure.Some? {
        return Err(failure.value);
      }
      var cls := ResourcesClass();
      if cls.Err? {
        return Err(cls.error);
      }
      if settings.None? {
        return Err(AttributeUnbound("_settings"));
      }
      var resources := AssembleResources(cls.value, settings.value, resolved);
      r := Ok(resources);
    }

    /** The `dependencies` property read once the order is known: a cache
        hit, or the rescan of a class without descriptors, which sorts it
        again to the same empty order. */
    method CachedDependencies() returns (deps: OrderedDict<Dependency>)
      requires Valid() && dependencies == DescriptorsOf(namespace)
      modifies this`dependencies, this`resolutionOrder, this`sortedGraph
      ensures Valid() && deps == DescriptorsOf(namespace) && dependencies == deps
      ensures resolutionOrder == old(resolutionOrder)
    {
      ghost var descriptors := DescriptorsOf(namespace);
      DescriptorsOfSelects(namespace);
      CachedOrderBounded(descriptors, resolutionOrder);
      var fetched := Dependencies();
      if old(dependencies.keys) == [] {
        EmptyGraphOrder(GraphOf(descriptors), if fetched.Ok? then Ok(resolutionOrder) else Err(fetched.error));
      }
      deps := fetched.value;
    }

    /** `__aexit__`: with a stack held, unwinds it and drops it; without one,
        does nothing. */
    method Aexit() returns (effects: seq<Effect>)
      modifies this, stack
      ensures stack == null
      ensures old(stack) == null ==> effects == []
      ensures old(stack) != null ==> effects == Unwind(old(stack.callbacks)) && old(stack).callbacks == []
    {
      if stack != null {
        effects := stack.Aexit();
        stack := null;
      } else {
        effects := [];
      }
    }
  }

  /** A cached order lists descriptors without repetition, so it is no
      longer than the dict of descriptors. */
  lemma CachedOrderBounded(descriptors: OrderedDict<Dependency>, order: seq<string>)
    requires descriptors.Valid()
    requires order != [] ==> Distinct(order) && forall n :: n in order <==> n in descriptors.entries
    ensures |order| <= |descriptors.keys|
  {
    if order != [] {
      DistinctCard(order);
      DistinctCard(descriptors.keys);
      assert Elems(order) <= Elems(descriptors.keys);
      assert |Elems(descriptors.keys) - Elems(order)| == |descriptors.keys| - |order|;
    }
  }
}
