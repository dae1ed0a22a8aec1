/** The container's lifecycle across several calls: a second enter while the
    stack is held is refused, an exit unwinds what the enter pushed, and an
    exited container can be entered again. */
module Scenarios {
  import opened Types
  import opened Cleanup
  import opened Descriptor
  import opened ResolutionOrder
  import opened ExitStack
  import opened Lifecycle
  import opened ContainerBase
  import opened AsyncContainer
  import opened UniqueOrder

  /** Entering twice without exiting: the second enter raises
      ContainerReuseError whatever the first did, even when the first
      failed (a failed enter keeps its stack). */
  method EnterTwice(c: AsyncExitStackContainer) returns (first: Result<Resources>, second: Result<Resources>)
    requires c.Valid() && c.stack == null
    modifies c, c.base
    ensures first != Err(ContainerReuse)
    ensures second == Err(ContainerReuse)
    ensures c.stack != null
  {
    ghost var views := ViewsOf(DescriptorsOf(c.base.namespace));
    ghost var order;
    first, order := c.Aenter();
    if order.Ok? {
      EnterErrors(order.value, views, c.base.resourcesType, c.settings);
    }
    ghost var again;
    second, again := c.Aenter();
  }

  /** Enter, exit, enter: the exit runs the cleanups the first enter pushed,
      newest first, and releases the stack, so the second enter is not
      refused. It follows the same order, which the first enter cached or,
      when there was nothing to cache, the sort finds again. Factories are
      functions of their kwargs here, so it also gives the same result. */
  method ReenterAfterExit(c: AsyncExitStackContainer)
      returns (first: Result<Resources>, effects: seq<Effect>, second: Result<Resources>,
               ghost order: Result<seq<string>>, ghost pushed: seq<AsyncCallback>, ghost again: Result<seq<string>>)
    requires c.Valid() && c.stack == null
    modifies c, c.base
    ensures first != Err(ContainerReuse) && second != Err(ContainerReuse)
    ensures order.Err? ==> pushed == []
    ensures order.Ok? ==>
              && Covers(order.value, old(ViewsOf(DescriptorsOf(c.base.namespace))))
              && pushed == EnterOutcome(order.value, old(ViewsOf(DescriptorsOf(c.base.namespace))), c.base.resourcesType, c.settings).1
    ensures effects == Unwind(pushed)
    ensures CalledTokens(effects) == Reverse(Tokens(pushed))
    ensures again == order && second == first
  {
    ghost var descriptors := DescriptorsOf(c.base.namespace);
    ghost var views := ViewsOf(descriptors);
    ghost var graph := GraphOf(descriptors);
    DescriptorsOfSelects(c.base.namespace);
    label start:
    first, order := c.Aenter();
    ViewsUnchanged@start(descriptors);
    if order.Ok? {
      EnterErrors(order.value, views, c.base.resourcesType, c.settings);
    }
    pushed := c.stack.callbacks;
    effects := c.Aexit();
    UnwindCallsInReverse(pushed);
    ViewsUnchanged@start(descriptors);
    second, again := EnterAgain(c, order);
  }

  /** Entering an exited container whose cache holds what the last enter
      left there: the cached order when the sort succeeded, nothing but the
      same sort's outcome otherwise. The enter follows that order again. */
  method EnterAgain(c: AsyncExitStackContainer, ghost order: Result<seq<string>>)
      returns (second: Result<Resources>, ghost again: Result<seq<string>>)
    requires c.Valid() && c.stack == null
    requires c.base.resolutionOrder == (if order.Ok? then order.value else [])
    requires c.base.resolutionOrder == [] ==> SortOutcome(GraphOf(DescriptorsOf(c.base.namespace)), order)
    modifies c, c.base
    ensures again == order
    ensures order.Err? ==> second == Err(order.error)
    ensures order.Ok? ==> second == EnterOutcome(order.value, old(ViewsOf(DescriptorsOf(c.base.namespace))), c.base.resourcesType, c.settings).0
  {
    ghost var graph := GraphOf(DescriptorsOf(c.base.namespace));
    DescriptorsOfSelects(c.base.namespace);
    second, again := c.Aenter();
    if old(c.base.resolutionOrder) == [] {
      OutcomeUnique(graph, order, again);
    }
  }

  /** A failed enter does not unwind: with `db` made and marked for cleanup
      and `api`, which takes `db`, raising when called, entering in the
      order db, api raises the factory's exception and leaves db's cleanup
      on the stack, not yet run (Aenter leaves the stack held). */
  lemma FailedEnterKeepsCleanup(db: Factory, api: Factory, instance: Value, e: Value, resourcesType: Result<Value>, settings: Option<Value>)
    requires db.call(map[]) == Returned(instance) && db.onExit.Some?
    requires api.call(map["db" := instance]) == RaisedOnCall(e)
    ensures var views := map["db" := View(Some("db"), db, []), "api" := View(Some("api"), api, [("db", RefArg(Some("db")))])];
            EnterOutcome(["db", "api"], views, resourcesType, settings) == (Err(Raised(e)), [MakeCleanup(db.onExit.value(instance))])
  {
    var views := map["db" := View(Some("db"), db, []), "api" := View(Some("api"), api, [("db", RefArg(Some("db")))])];
    var order := ["db", "api"];
    assert order[..1] == ["db"] && order[..1][..0] == [];
    assert RunSteps(order[..1][..0], views) == EnterState(EmptyDict(), [], None);
    assert ResolveArgs([], map[], Some("db")) == Ok(map[]);
    assert ResolveView(views["db"], map[]) == Ok(instance);
    var s1 := RunSteps(order[..1], views);
    assert s1.resolved.entries == map["db" := instance];
    assert s1.pushed == [MakeCleanup(db.onExit.value(instance))];
    var args := views["api"].kwargs;
    assert args[..0] == [];
    assert ResolveArgs(args, s1.resolved.entries, Some("api")) == Ok(map["db" := instance]);
  }
}
