/** What the enter loop of the container computes, stated on a snapshot of
    the descriptors: the instances resolved one name at a time along the
    resolution order, the cleanups pushed after them, the first error, and
    the resources object assembled at the end. */
module Lifecycle {
  import opened Types
  import opened Cleanup
  import opened Descriptor
  import opened ResolutionOrder

  /** The cleanups that are pushed right after `instance` was made by
      `factory`: one when the factory carries a cleanup getter, none
      otherwise. */
  function CleanupFor(factory: Factory, instance: Value): seq<AsyncCallback> {
    if factory.onExit.Some? then [MakeCleanup(factory.onExit.value(instance))] else []
  }

  /** The state of the enter loop: the `resolved` dict, the callbacks on
      the exit stack, and the error that ended the loop early, if any. */
  datatype EnterState = EnterState(resolved: OrderedDict<Value>, pushed: seq<AsyncCallback>, failure: Option<Error>)

  /** One iteration for `name`, whose descriptor is seen as `v`. */
  function Step(s: EnterState, name: string, v: View): EnterState {
    if s.failure.Some? then s
    else match ResolveView(v, s.resolved.entries)
      case Err(e) => s.(failure := Some(e))
      case Ok(instance) => EnterState(s.resolved.Set(name, instance), s.pushed + CleanupFor(v.factory, instance), None)
  }

  ghost predicate Covers(order: seq<string>, views: map<string, View>) {
    forall i :: 0 <= i < |order| ==> order[i] in views
  }

  /** The loop run over `order`. */
  function RunSteps(order: seq<string>, views: map<string, View>): EnterState
    requires Covers(order, views)
  {
    if |order| == 0 then EnterState(EmptyDict(), [], None)
    else Step(RunSteps(order[..|order| - 1], views), order[|order| - 1], views[order[|order| - 1]])
  }

  /** The loop over one more name of the order takes one more step. */
  lemma RunStepsNext(order: seq<string>, i: int, views: map<string, View>)
    requires Covers(order, views) && 0 <= i < |order|
    ensures Covers(order[..i], views) && Covers(order[..i + 1], views)
    ensures RunSteps(order[..i + 1], views) == Step(RunSteps(order[..i], views), order[i], views[order[i]])
  {
    assert order[..i + 1][..i] == order[..i];
  }

  /** One cleanup for each name of `names` whose factory carries a cleanup
      getter, in the order of `names`. */
  function CleanupsOf(names: seq<string>, views: map<string, View>, instances: map<string, Value>): seq<AsyncCallback>
    requires forall i :: 0 <= i < |names| ==> names[i] in views && names[i] in instances
  {
    if |names| == 0 then []
    else
      var last := names[|names| - 1];
      CleanupsOf(names[..|names| - 1], views, instances) + CleanupFor(views[last].factory, instances[last])
  }

  lemma {:induction false} CleanupsOfExtend(names: seq<string>, views: map<string, View>, instances: map<string, Value>, name: string, instance: Value)
    requires forall i :: 0 <= i < |names| ==> names[i] in views && names[i] in instances
    requires name in views && name !in names
    ensures CleanupsOf(names + [name], views, instances[name := instance])
            == CleanupsOf(names, views, instances) + CleanupFor(views[name].factory, instance)
  {
    var extended := names + [name];
    assert extended[..|names|] == names;
    CleanupsOfUpdate(names, views, instances, name, instance);
  }

  lemma {:induction false} CleanupsOfUpdate(names: seq<string>, views: map<string, View>, instances: map<string, Value>, name: string, instance: Value)
    requires forall i :: 0 <= i < |names| ==> names[i] in views && names[i] in instances
    requires name !in names
    ensures CleanupsOf(names, views, instances[name := instance]) == CleanupsOf(names, views, instances)
  {
    if |names| > 0 {
      CleanupsOfUpdate(names[..|names| - 1], views, instances, name, instance);
    }
  }

  /** The loop state is consistent: a dict of the resolved names in
      resolution order and, in the same order, one cleanup per resolved
      name whose factory is marked. */
  ghost predicate Consistent(s: EnterState, views: map<string, View>) {
    && s.resolved.Valid()
    && (forall i :: 0 <= i < |s.resolved.keys| ==> s.resolved.keys[i] in views)
    && s.pushed == CleanupsOf(s.resolved.keys, views, s.resolved.entries)
  }

  lemma StepShape(s: EnterState, views: map<string, View>, name: string, instance: Value)
    requires Consistent(s, views) && s.failure.None? && name in views && name !in s.resolved.keys
    ensures var t := EnterState(s.resolved.Set(name, instance), s.pushed + CleanupFor(views[name].factory, instance), None);
            Consistent(t, views) && t.resolved.keys == s.resolved.keys + [name]
  {
    CleanupsOfExtend(s.resolved.keys, views, s.resolved.entries, name, instance);
  }

  /** Names are resolved in exactly the given order: the resolved dict holds
      a prefix of the order, all of it unless an error ended the loop, and
      the exit stack holds, in that order, one cleanup per resolved name
      whose factory is marked, each pushed right after its instance. */
  lemma {:induction false} RunStepsShape(order: seq<string>, views: map<string, View>)
    requires Covers(order, views) && Distinct(order)
    ensures Consistent(RunSteps(order, views), views)
    ensures RunSteps(order, views).resolved.keys <= order
    ensures RunSteps(order, views).failure.None? <==> RunSteps(order, views).resolved.keys == order
  {
    if |order| > 0 {
      var init, name := order[..|order| - 1], order[|order| - 1];
      assert order == init + [name];
      assert Covers(init, views);
      RunStepsShape(init, views);
      var s := RunSteps(init, views);
      if s.failure.None? {
        match ResolveView(views[name], s.resolved.entries)
        case Err(e) =>
        case Ok(instance) => StepShape(s, views, name, instance);
      }
    }
  }

  /** Once an error ends the loop, the remaining names are not resolved and
      nothing more is pushed: a longer order ends in the same state. */
  lemma {:induction false} FailureSticks(order: seq<string>, k: int, views: map<string, View>)
    requires Covers(order, views) && 0 <= k <= |order|
    requires RunSteps(order[..k], views).failure.Some?
    ensures RunSteps(order, views) == RunSteps(order[..k], views)
    decreases |order|
  {
    if k < |order| {
      var init := order[..|order| - 1];
      assert init[..k] == order[..k];
      FailureSticks(init, k, views);
    } else {
      assert order[..k] == order;
    }
  }

  /** Every reference inside a descriptor names a descriptor. */
  ghost predicate AllReferencesNamed(views: map<string, View>) {
    forall n, i :: n in views && 0 <= i < |views[n].kwargs| && views[n].kwargs[i].1.RefArg? ==>
      views[n].kwargs[i].1.name.Some? && views[n].kwargs[i].1.name.value != ""
  }

  /** Along a valid resolution order, with every reference named, no
      descriptor finds a dependency missing: the loop can only end early on
      an exception raised by a factory. */
  lemma {:induction false} OrderedEnterOnlyRaisesFactoryErrors(names: seq<string>, views: map<string, View>, order: seq<string>)
    requires IsResolutionOrder(GraphOfViews(names, views), order) && AllReferencesNamed(views)
    ensures Covers(order, views)
    ensures RunSteps(order, views).failure.Some? ==> RunSteps(order, views).failure.value.Raised?
  {
    var g := GraphOfViews(names, views);
    assert Covers(order, views) by {
      forall i | 0 <= i < |order| ensures order[i] in views {
        assert order[i] in g.entries;
      }
    }
    PrefixOnlyRaises(names, views, order, |order|);
    assert order[..|order|] == order;
  }

  lemma {:induction false} PrefixOnlyRaises(names: seq<string>, views: map<string, View>, order: seq<string>, k: int)
    requires IsResolutionOrder(GraphOfViews(names, views), order) && AllReferencesNamed(views)
    requires Covers(order, views) && 0 <= k <= |order|
    ensures Covers(order[..k], views)
    ensures RunSteps(order[..k], views).failure.Some? ==> RunSteps(order[..k], views).failure.value.Raised?
  {
    assert Covers(order[..k], views);
    if k > 0 {
      PrefixOnlyRaises(names, views, order, k - 1);
      RunStepsNext(order, k - 1, views);
      if RunSteps(order[..k - 1], views).failure.None? {
        NextOnlyRaises(names, views, order, k - 1);
      }
    }
  }

  /** Once the names before `k` are resolved, the descriptor at `k` finds
      every reference resolved, so it can only fail in its factory. */
  lemma NextOnlyRaises(names: seq<string>, views: map<string, View>, order: seq<string>, k: int)
    requires IsResolutionOrder(GraphOfViews(names, views), order) && AllReferencesNamed(views)
    requires Covers(order, views) && 0 <= k < |order|
    requires Covers(order[..k], views) && RunSteps(order[..k], views).failure.None?
    ensures var r := ResolveView(views[order[k]], RunSteps(order[..k], views).resolved.entries);
            r.Err? ==> r.error.Raised?
  {
    var g := GraphOfViews(names, views);
    var init := order[..k];
    var s := RunSteps(init, views);
    RunStepsShape(init, views);
    var name := order[k];
    var args := views[name].kwargs;
    forall i | 0 <= i < |args| && args[i].1.RefArg?
      ensures args[i].1.name.Some? && args[i].1.name.value in s.resolved.entries
    {
      var target := args[i].1.name.value;
      assert target in EdgeNames(args);
      DependenciesEarlier(g, order, k, target);
    }
    ResolveOnlyRaises(views[name], s.resolved.entries);
  }

  /** A dependency of a name comes before it in a resolution order. */
  lemma DependenciesEarlier(g: Graph, order: seq<string>, k: int, target: string)
    requires DependenciesFirst(g, order) && 0 <= k < |order|
    requires order[k] in g.entries && target in g.entries[order[k]]
    ensures target in order[..k]
  {
    assert target in Elems(order);
    var j :| 0 <= j < |order| && order[j] == target;
    assert order[..k][j] == target;
  }

  /** A descriptor whose references are all satisfied can only fail with an
      exception from its factory. */
  lemma ResolveOnlyRaises(v: View, resolved: map<string, Value>)
    requires forall i :: 0 <= i < |v.kwargs| && v.kwargs[i].1.RefArg? ==>
               v.kwargs[i].1.name.Some? && v.kwargs[i].1.name.value in resolved
    ensures ResolveView(v, resolved).Err? ==> ResolveView(v, resolved).error.Raised?
  {
    ResolveArgsOutcome(v.kwargs, resolved, v.name);
  }

  /** The enter loop ends early only with a DependencyNotResolved error or
      with an exception raised by a factory. */
  lemma {:induction false} LoopErrors(order: seq<string>, views: map<string, View>)
    requires Covers(order, views)
    ensures var s := RunSteps(order, views);
            s.failure.Some? ==> s.failure.value.DependencyNotResolved? || s.failure.value.Raised?
  {
    if |order| > 0 {
      var init, name := order[..|order| - 1], order[|order| - 1];
      LoopErrors(init, views);
      ResolveArgsOutcome(views[name].kwargs, RunSteps(init, views).resolved.entries, views[name].name);
    }
  }

  /** `resources`: the fresh instance of the resources class, with the
      `settings` field first and then one field per resolved name. */
  datatype Resources = Resources(cls: Value, fields: map<string, Value>)

  function Bundle(settings: Value, resolved: OrderedDict<Value>): map<string, Value> {
    map["settings" := settings] + resolved.entries
  }

  /** The bundle has a field for `settings` and for every resolved name and
      no other; each resolved name holds its instance, and `settings` holds
      the settings unless a descriptor of that name overwrote it. */
  lemma BundleFields(settings: Value, resolved: OrderedDict<Value>)
    ensures Bundle(settings, resolved).Keys == {"settings"} + resolved.entries.Keys
    ensures forall n :: n in resolved.entries ==> Bundle(settings, resolved)[n] == resolved.entries[n]
    ensures "settings" !in resolved.entries ==> Bundle(settings, resolved)["settings"] == settings
  {
  }

  /** What entering does once the stack is fresh and the resolution order is
      known: the result and the callbacks left on the stack. */
  function EnterOutcome(order: seq<string>, views: map<string, View>, resourcesType: Result<Value>, settings: Option<Value>): (Result<Resources>, seq<AsyncCallback>)
    requires Covers(order, views)
  {
    var s := RunSteps(order, views);
    if s.failure.Some? then (Err(s.failure.value), s.pushed)
    else if resourcesType.Err? then (Err(resourcesType.error), s.pushed)
    else if settings.None? then (Err(AttributeUnbound("_settings")), s.pushed)
    else (Ok(Resources(resourcesType.value, Bundle(settings.value, s.resolved))), s.pushed)
  }

  /** Once the order is known, entering fails only in the loop or while
      extracting the resources class: never with ContainerReuseError and
      never with CircularDependencyError. */
  lemma EnterErrors(order: seq<string>, views: map<string, View>, resourcesType: Result<Value>, settings: Option<Value>)
    requires Covers(order, views)
    requires resourcesType.Err? ==> resourcesType.error == InvalidContainerInheritance
    ensures var r := EnterOutcome(order, views, resourcesType, settings).0;
            r.Err? ==> (|| r.error.DependencyNotResolved? || r.error.Raised? || r.error == InvalidContainerInheritance
                       || r.error == AttributeUnbound("_settings"))
  {
    LoopErrors(order, views);
  }

  /** A successful enter resolved every name of the order, and the stack
      holds one cleanup per marked factory, in resolution order. */
  lemma EnterSucceeded(order: seq<string>, views: map<string, View>, resourcesType: Result<Value>, settings: Option<Value>)
    requires Covers(order, views) && Distinct(order)
    requires EnterOutcome(order, views, resourcesType, settings).0.Ok?
    ensures Consistent(RunSteps(order, views), views) && RunSteps(order, views).resolved.keys == order
    ensures EnterOutcome(order, views, resourcesType, settings).0.value.fields.Keys == {"settings"} + Elems(order)
  {
    RunStepsShape(order, views);
    assert order[..|order|] == order;
  }
}
