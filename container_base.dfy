/** `AbstractContainer`: a container class declares its descriptors as class
    attributes; an instance finds them, orders them and knows its resources
    class, each lazily and cached on the instance. */
module ContainerBase {
  import opened Types
  import opened Descriptor
  import opened ResolutionOrder

  /** A value in the namespace that the container class defines itself
      (`vars(cls)`): a dependency descriptor or anything else. */
  datatype Attr = DependencyAttr(dep: Dependency) | OtherAttr(value: Value)

  function IsDescriptor(namespace: OrderedDict<Attr>): string -> bool {
    n => n in namespace.entries && namespace.entries[n].DependencyAttr?
  }

  /** The descriptors of a class namespace, keyed by attribute name, in
      attribute order. */
  function DescriptorsOf(namespace: OrderedDict<Attr>): OrderedDict<Dependency> {
    OrderedDict(Filter(namespace.keys, IsDescriptor(namespace)),
                map n | n in namespace.entries && namespace.entries[n].DependencyAttr? :: namespace.entries[n].dep)
  }

  /** The scan keeps exactly the descriptor attributes, each under its own
      name, and it keeps their relative order. */
  lemma DescriptorsOfSelects(namespace: OrderedDict<Attr>)
    requires namespace.Valid()
    ensures DescriptorsOf(namespace).Valid()
    ensures forall n :: n in DescriptorsOf(namespace).entries <==> n in namespace.entries && namespace.entries[n].DependencyAttr?
    ensures forall n :: n in DescriptorsOf(namespace).entries ==> namespace.entries[n] == DependencyAttr(DescriptorsOf(namespace).entries[n])
    ensures forall i, j :: 0 <= i < j < |DescriptorsOf(namespace).keys| ==>
              Precedes(namespace.keys, DescriptorsOf(namespace).keys[i], DescriptorsOf(namespace).keys[j])
  {
    var keep := IsDescriptor(namespace);
    FilterDistinct(namespace.keys, keep);
    FilterElems(namespace.keys, keep);
    forall i, j | 0 <= i < j < |DescriptorsOf(namespace).keys|
      ensures Precedes(namespace.keys, DescriptorsOf(namespace).keys[i], DescriptorsOf(namespace).keys[j])
    {
      FilterPrecedes(namespace.keys, keep, i, j);
    }
  }

  /** `_scan_dependencies`: walks the namespace in attribute order and
      collects the descriptors. */
  method ScanDependencies(namespace: OrderedDict<Attr>) returns (dependencies: OrderedDict<Dependency>)
    requires namespace.Valid()
    ensures dependencies == DescriptorsOf(namespace)
  {
    ghost var keep := IsDescriptor(namespace);
    dependencies := EmptyDict();
    for k := 0 to |namespace.keys|
      invariant dependencies.keys == Filter(namespace.keys[..k], keep)
      invariant forall n :: n in dependencies.entries <==> n in dependencies.keys
      invariant forall n :: n in dependencies.entries ==> n in namespace.entries && namespace.entries[n] == DependencyAttr(dependencies.entries[n])
    {
      var name := namespace.keys[k];
      var attr := namespace.entries[name];
      FilterSnoc(namespace.keys, k, keep);
      if attr.DependencyAttr? {
        assert name !in dependencies.keys by {
          FilterMember(namespace.keys[..k], keep, name);
        }
        dependencies := OrderedDict(dependencies.keys + [name], dependencies.entries[name := attr.dep]);
      }
    }
    assert namespace.keys[..|namespace.keys|] == namespace.keys;
    forall n ensures n in dependencies.entries <==> n in DescriptorsOf(namespace).entries {
      FilterMember(namespace.keys, keep, n);
    }
  }

  /** What a container's caches may hold: nothing yet, or what they cache.
      The resources class is the outcome of extracting it from the generic
      bases, which can only fail with InvalidContainerInheritance. A cached
      order lists every descriptor once and is what the sort returned for
      `sortedGraph`, the graph of the descriptors when it was sorted. */
  ghost predicate CachesValid(namespace: OrderedDict<Attr>, resourcesType: Result<Value>, resourcesClass: Option<Value>,
                              dependencies: OrderedDict<Dependency>, resolutionOrder: seq<string>, sortedGraph: Graph)
  {
    && namespace.Valid()
    && (resourcesType.Err? ==> resourcesType.error == InvalidContainerInheritance)
    && (resourcesClass.Some? ==> resourcesType == Ok(resourcesClass.value))
    && (dependencies == EmptyDict() || dependencies == DescriptorsOf(namespace))
    && (resolutionOrder != [] ==> Distinct(resolutionOrder) && forall n :: n in resolutionOrder <==> n in DescriptorsOf(namespace).entries)
    && (resolutionOrder != [] ==> SortOutcome(sortedGraph, Ok(resolutionOrder)))
  }

  /** Caching the sort's order of the descriptors keeps the caches valid. */
  lemma CachesValidWithOrder(namespace: OrderedDict<Attr>, resourcesType: Result<Value>, resourcesClass: Option<Value>,
                             dependencies: OrderedDict<Dependency>, previous: seq<string>, previousGraph: Graph,
                             order: seq<string>, graph: Graph)
    requires CachesValid(namespace, resourcesType, resourcesClass, dependencies, previous, previousGraph)
    requires Distinct(order) && forall n :: n in order <==> n in DescriptorsOf(namespace).entries
    requires SortOutcome(graph, Ok(order))
    ensures CachesValid(namespace, resourcesType, resourcesClass, dependencies, order, graph)
  {
  }

  class AbstractContainer {
    /** `vars(type(self))`: the attributes the container class defines. */
    const namespace: OrderedDict<Attr>
    /** What `_extract_resources_class()` gives for this class: the
        resources class, or the InvalidContainerInheritance it raises. */
    const resourcesType: Result<Value>
    /** `_resources_class`, `_dependencies`, `_resolution_order`. */
    var resourcesClass: Option<Value>
    var dependencies: OrderedDict<Dependency>
    var resolutionOrder: seq<string>
    /** The graph that the cached order was sorted from. */
    ghost var sortedGraph: Graph

    ghost predicate Valid()
      reads this
    {
      CachesValid(namespace, resourcesType, resourcesClass, dependencies, resolutionOrder, sortedGraph)
    }

    /** `__init__`: every cache starts empty. */
    constructor (namespace: OrderedDict<Attr>, resourcesType: Result<Value>)
      requires namespace.Valid()
      requires resourcesType.Err? ==> resourcesType.error == InvalidContainerInheritance
      ensures Valid()
      ensures this.namespace == namespace && this.resourcesType == resourcesType
      ensures resourcesClass == None && dependencies == EmptyDict() && resolutionOrder == []
    {
      this.namespace := namespace;
      this.resourcesType := resourcesType;
      resourcesClass := None;
      dependencies := EmptyDict();
      resolutionOrder := [];
    }

    /** The `resources_class` property: extracted on first use and cached;
        a failed extraction raises and caches nothing. */
    method ResourcesClass() returns (r: Result<Value>)
      requires Valid()
      modifies this`resourcesClass
      ensures Valid()
      ensures r == resourcesType
      ensures resourcesClass == (if r.Ok? then Some(r.value) else None)
    {
      if resourcesClass.None? {
        var cls :- resourcesType;
        resourcesClass := Some(cls);
      }
      r := Ok(resourcesClass.value);
    }

    /** The `dependencies` property: scans while the cache is empty. */
    method Dependencies() returns (d: OrderedDict<Dependency>)
      requires Valid()
      modifies this`dependencies
      ensures Valid()
      ensures d == DescriptorsOf(namespace) && dependencies == d
    {
      if |dependencies.keys| == 0 {
        dependencies := ScanDependencies(namespace);
      }
      d := dependencies;
    }

    /** The `resolution_order` property: sorts the descriptors while the
        cache is empty; a failed sort raises and caches nothing. */
    method ResolutionOrder() returns (r: Result<seq<string>>)
      requires Valid()
      modifies this`resolutionOrder, this`dependencies, this`sortedGraph
      ensures Valid()
      ensures old(resolutionOrder) != [] ==> r == Ok(old(resolutionOrder)) && unchanged(this)
      ensures old(resolutionOrder) == [] ==>
                && dependencies == DescriptorsOf(namespace)
                && SortOutcome(GraphOf(DescriptorsOf(namespace)), r)
                && resolutionOrder == (if r.Ok? then r.value else [])
      ensures r.Ok? ==> Distinct(r.value) && forall n :: n in r.value <==> n in DescriptorsOf(namespace).entries
      ensures r.Ok? ==> resolutionOrder == r.value
    {
      if resolutionOrder == [] {
        var deps := Dependencies();
        DescriptorsOfSelects(namespace);
        r := MakeResolutionOrder(deps);
        ghost var graph := GraphOf(deps);
        if r.Ok? {
          OrderCoversDescriptors(deps, r.value);
          CachesValidWithOrder(namespace, resourcesType, resourcesClass, dependencies, resolutionOrder, sortedGraph, r.value, graph);
        }
        label sorted:
        if r.Ok? {
          resolutionOrder := r.value;
          sortedGraph := graph;
        }
        ViewsUnchanged@sorted(deps);
      } else {
        r := Ok(resolutionOrder);
      }
    }
  }

  /** A resolution order of the descriptors' graph lists every descriptor
      once. */
  lemma OrderCoversDescriptors(deps: OrderedDict<Dependency>, order: seq<string>)
    requires IsResolutionOrder(GraphOf(deps), order)
    ensures Distinct(order) && forall n :: n in order <==> n in deps.entries
  {
    forall n ensures n in order <==> n in deps.entries {
      assert n in order <==> n in Elems(order);
    }
  }
}
