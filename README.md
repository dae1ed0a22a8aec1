# exit-stack-container in Dafny

A model of the core of `exit-stack-container`, a small dependency-injection
container for asyncio programs, with proofs about the model. Each resource
is declared on a container class as a `Dependency` descriptor. A descriptor
holds a factory and keyword arguments. An argument is either a literal or
another descriptor. Entering the container (`async with`) does four things:

- it computes a resolution order by a topological sort of the descriptors;
- it builds every resource in that order, passing the earlier instances in;
- it pushes each resource's cleanup on an `AsyncExitStack`;
- it returns a resources object that holds `settings` and one field per
  resource.

Exiting unwinds the stack, newest cleanup first.

The model follows the source structure:

| file | module | models |
|---|---|---|
| `types.dfy` | `Types` | Python values (an opaque type), the container's exceptions, insertion-ordered dicts, list helpers |
| `sorting.dfy` | `NameSort` | Python's `list.sort()` on names (code-point order) |
| `cleanup.dfy` | `Cleanup` | `make_cleanup` / `_make_cleanup` |
| `dependency.dfy` | `Descriptor` | the `Dependency` descriptor as a class, with a value-level view used by the specifications |
| `resolution_order.dfy` | `ResolutionOrder` | `make_resolution_order` / `_make_resolve_order`: building the graph, then Kahn's algorithm, imperatively, against a declarative specification |
| `unique_order.dfy` | `UniqueOrder` | the sort's specification allows exactly one outcome; the tie-break example |
| `exit_stack.dfy` | `ExitStack` | the part of `contextlib.AsyncExitStack` the container uses |
| `lifecycle.dfy` | `Lifecycle` | the enter loop and the resources bundle, as functions |
| `container_base.dfy` | `ContainerBase` | `AbstractContainer` and its cached properties |
| `async_container.dfy` | `AsyncContainer` | the subpackage's `AsyncExitStackContainer` |
| `flat_container.dfy` | `FlatContainer` | the single-module `AsyncExitStackContainer` in `exit_stack_container/container.py` |
| `scenarios.dfy` | `Scenarios` | enter twice, enter–exit–enter, a failed enter |

Methods with loops are proved against specification functions or
predicates. Examples:

- `Kahn` is proved against `SortOutcome`.
- `Dependency.Resolve` is proved against `ResolveView`.
- `ResolveAlong` is proved against `RunSteps`.

`SortOutcome` states the sort's result or error declaratively:

- **On success:** the result is a resolution order. Every descriptor
  appears once, after its dependencies.
- **Roots:** names with no dependencies come first, in ascending order.
- **Release order:** the other names are first-in first-out by the moment
  their last dependency was listed. Names released at the same moment keep
  declaration order.
- **On failure:** `CircularDependencyError` is raised exactly when no
  resolution order exists. It carries the names resolved so far and the
  pending names.

`UniqueOrder.OutcomeUnique` shows that exactly one outcome fits this
description.

The model follows the code in several places where its behaviour differs
from what the intended behaviour appears to be:

- **Tie-break.** A smallest-ready-name-first order would be a natural
  reading of the sort. The code sorts only the initial names, those with
  no dependencies.
  Names that become ready later are appended in declaration order.
  - Example: descriptors declared as `C`, `B`, `A`, where `C` and `B` both
    take `A`.
  - The code returns `A, C, B`, not `A, B, C`; see
    `UniqueOrder.TieBreakFollowsDeclarationOrder`.
- **Failed enter.** One would expect a failure during enter to tear down
  what was built. The code does not unwind. Python does not call
  `__aexit__` when `__aenter__` raises.
  - The cleanups pushed so far stay on the stack, not run.
  - The stack stays held, so a later enter raises `ContainerReuseError`.
  - See `Scenarios.FailedEnterKeepsCleanup` and `Scenarios.EnterTwice`.
- **Reuse after exit.** The single-module container's refusal says the
  instance "cannot be reused" and asks for a new instance for each usage
  (`exit_stack_container/container.py:68`). The subpackage's message says
  "create new instance or exit first"
  (`exit_stack_container/container/async_container.py:24`). In both, the
  code allows enter again after exit, because `__aexit__` drops the stack.
  The second enter follows the order the first one used; see
  `Scenarios.ReenterAfterExit`. The model also has it give the same result,
  because it treats each factory as a function of its kwargs (see
  "## Left out").
- **Missing references.** `CircularDependencyError` is also raised when no
  cycle exists but a descriptor refers to a name that is not a descriptor
  of the class; see `ResolutionOrder.MissingNameHasNoOrder`.
- **Flat `dependencies`.** In the single-module container, the
  `dependencies` property also sorts and caches the resolution order. It
  can raise after it has cached the dict.
- **A descriptor named `settings`** overwrites the settings field, since
  the fields of the resources object are set after `settings`.
- **`_settings` is never bound.** Both containers only annotate
  `_settings` (`exit_stack_container/container/async_container.py:19`,
  `exit_stack_container/container.py:26`) and no
  code of the package assigns it. Reading it then raises `AttributeError`,
  after the loop has pushed its cleanups, which stay on the stack. Each
  container carries `settings` as an option: a value when the container
  class binds it, and none when it does not. With none, entering fails
  with `AttributeUnbound("_settings")`.

## Model

| member | source | states |
|---|---|---|
| Cleanup.MakeCleanup | src/exit_stack_container/container/helpers.py:64-74 | to return a coroutine function unchanged, and to wrap any other cleanup function in an adapter around the same function |
| Cleanup.AdaptedCleanupCallsOnce | src/exit_stack_container/container/helpers.py:66-72 | the adapted cleanup calls the function exactly once, and awaits the result only when it is a coroutine |
| ExitStack.UnwindCallsInReverse | src/exit_stack_container/container/async_container.py:49-53 | unwinding the stack calls the pushed cleanups in the reverse of the push order, each once |
| ExitStack.UnwindPushed | src/exit_stack_container/container/async_container.py:36-39 | a cleanup pushed last runs first, before everything pushed earlier |
| ExitStack.AsyncExitStack.constructor | src/exit_stack_container/container/async_container.py:26-27 | a fresh exit stack holds no callbacks |
| ExitStack.AsyncExitStack.PushAsyncCallback | src/exit_stack_container/container/async_container.py:39 | the callback is appended after those already pushed |
| ExitStack.AsyncExitStack.Aexit | src/exit_stack_container/container/async_container.py:52 | the effects come from unwinding all the pushed callbacks, and the stack is left empty |
| Descriptor.Dependency.constructor | src/exit_stack_container/dependency.py:17-26 | stores the factory and keyword arguments; the descriptor has no name yet |
| Descriptor.Dependency.SetName | src/exit_stack_container/dependency.py:28-29 | the descriptor takes the attribute name; the owner class is ignored |
| Descriptor.Dependency.Resolve | src/exit_stack_container/dependency.py:31-54 | the loop over the keyword arguments gives the outcome that `ResolveView` specifies for the descriptor |
| Descriptor.ResolveArgsOutcome | src/exit_stack_container/dependency.py:41-48 | building the kwargs succeeds iff every reference is named and resolved, and then has exactly the declared keys; otherwise it fails with DependencyNotResolved for the first unresolved reference, naming it and the owner |
| Descriptor.ResolvedArgValues | src/exit_stack_container/dependency.py:42-48 | on success, every key maps to its literal, or to the instance resolved under the referenced name |
| Descriptor.ResolveArgsFailureSticks | src/exit_stack_container/dependency.py:46-47 | the first failing argument ends the scan; later arguments do not change the error |
| Descriptor.UnresolvedReferenceSkipsFactory | src/exit_stack_container/dependency.py:46-49 | with an unresolved reference, resolving raises DependencyNotResolved whatever the factory would do: the factory is not called |
| Descriptor.ResolveCallsFactory | src/exit_stack_container/dependency.py:49-52 | with every reference resolved, the outcome is that of calling the factory on exactly the declared keys and awaiting a coroutine result |
| ResolutionOrder.EdgesOf | src/exit_stack_container/container/helpers.py:34-37 | the edges of a descriptor are the names of the referenced descriptors that have a non-empty name; literals give none |
| ResolutionOrder.BuildGraph | src/exit_stack_container/container/helpers.py:32-38 | the graph has the descriptors' names in dict order, each mapped to its edges |
| ResolutionOrder.Relax | src/exit_stack_container/container/helpers.py:49-53 | every name that depends on the dequeued node loses one degree; the names that reach zero and are not yet listed are appended, in graph order |
| ResolutionOrder.Dequeue | src/exit_stack_container/container/helpers.py:45-53 | one iteration lists the head of the queue, keeps the sort's invariant, and leaves fewer names unlisted |
| ResolutionOrder.Outcome | src/exit_stack_container/container/helpers.py:55-61 | after the loop, the result or the CircularDependencyError (resolved, pending) is the one `SortOutcome` describes |
| ResolutionOrder.Kahn | src/exit_stack_container/container/helpers.py:40-61 | the sort returns a resolution order with roots first in ascending order and first-in first-out release, or raises CircularDependencyError with the listed and pending names, exactly when no resolution order exists |
| ResolutionOrder.MakeResolutionOrder | src/exit_stack_container/container/helpers.py:30-61 | the outcome for a descriptor dict is the one `SortOutcome` describes for its graph |
| ResolutionOrder.OutcomeDecidesOrder | src/exit_stack_container/container/helpers.py:55-61 | the sort succeeds iff a resolution order exists |
| ResolutionOrder.CycleHasNoOrder | src/exit_stack_container/container/helpers.py:55-59 | if every name of a non-empty set depends on a name in the set, no resolution order exists |
| ResolutionOrder.CycleIsPending | src/exit_stack_container/container/helpers.py:55-59 | the sort then raises CircularDependencyError, and every name on the cycle is pending |
| ResolutionOrder.MissingNameHasNoOrder | src/exit_stack_container/container/helpers.py:36-53 | a reference to a name that is not a descriptor also leaves no resolution order, so the sort raises CircularDependencyError |
| ResolutionOrder.EmptyGraphOrder | src/exit_stack_container/container/helpers.py:40-61 | a class without descriptors has the empty resolution order |
| NameSort.SortNames | src/exit_stack_container/container/helpers.py:41-42 | the result is in ascending order and a permutation of the input |
| NameSort.SortedDistinctAscending | src/exit_stack_container/container/helpers.py:42 | in a sorted list without repetitions, every earlier name is strictly smaller |
| UniqueOrder.OutcomeClosed | src/exit_stack_container/container/helpers.py:45-53 | the sort stops only when no unlisted name has all its dependencies listed |
| UniqueOrder.OutcomeUnique | src/exit_stack_container/container/helpers.py:40-61 | the sort is deterministic: one outcome satisfies its description |
| UniqueOrder.TieBreakFollowsDeclarationOrder | src/exit_stack_container/container/helpers.py:41-53 | for C, B, A declared in that order with C and B taking A, the order is A, C, B and not A, B, C |
| ContainerBase.DescriptorsOfSelects | src/exit_stack_container/container/container.py:71-77 | the scanned dict is valid and holds exactly the class attributes that are descriptors, in the class's attribute order |
| ContainerBase.ScanDependencies | src/exit_stack_container/container/container.py:71-77 | the scan loop yields the descriptors of the class namespace |
| ContainerBase.OrderCoversDescriptors | src/exit_stack_container/container/helpers.py:55-61 | a successful sort lists every descriptor exactly once |
| ContainerBase.AbstractContainer.constructor | src/exit_stack_container/container/container.py:21-25 | all three caches start empty |
| ContainerBase.AbstractContainer.ResourcesClass | src/exit_stack_container/container/container.py:27-32 | returns the extracted class and caches it; a failed extraction raises and caches nothing |
| ContainerBase.AbstractContainer.Dependencies | src/exit_stack_container/container/container.py:34-39 | returns the class's descriptors, scanning while the cache is empty |
| ContainerBase.AbstractContainer.ResolutionOrder | src/exit_stack_container/container/container.py:41-46 | returns the cached order, or sorts the descriptors and caches a successful result; the result lists every descriptor once; a cached order is the sort's result for the graph it was computed from |
| Lifecycle.RunStepsShape | src/exit_stack_container/container/async_container.py:31-39 | the loop resolves a prefix of the order, pushing one cleanup per marked factory, in order; it fails iff it stops before the end |
| Lifecycle.FailureSticks | src/exit_stack_container/container/async_container.py:33 | a failed resolution ends the loop: nothing after it is resolved or pushed |
| Lifecycle.LoopErrors | src/exit_stack_container/container/async_container.py:31-39 | the loop ends early only with DependencyNotResolved or an exception raised by a factory |
| Lifecycle.OrderedEnterOnlyRaisesFactoryErrors | src/exit_stack_container/container/async_container.py:31-34 | along a resolution order in which every reference is named, only factory exceptions can end the loop |
| Lifecycle.BundleFields | src/exit_stack_container/container/async_container.py:41-45 | the resources object has `settings` and one field per resolved name, each holding its instance |
| Lifecycle.EnterErrors | src/exit_stack_container/container/async_container.py:31-47 | once the order is known, entering fails only with DependencyNotResolved, a factory exception, InvalidContainerInheritance or the unbound `_settings` attribute |
| Lifecycle.EnterSucceeded | src/exit_stack_container/container/async_container.py:41-47 | a successful enter resolved every name of the order, and the resources object has exactly `settings` and those names |
| AsyncContainer.AssembleResources | src/exit_stack_container/container/async_container.py:41-47 | the resources object is the class with the `settings` field and every resolved instance set on it |
| AsyncContainer.ResolveAlong | src/exit_stack_container/container/async_container.py:31-39 | the loop's resolved dict, pushed cleanups and error are those of `RunSteps` over the order |
| AsyncContainer.AsyncExitStackContainer.constructor | src/exit_stack_container/container/container.py:21-25 | a new container has empty caches and holds no stack |
| AsyncContainer.AsyncExitStackContainer.Aenter | src/exit_stack_container/container/async_container.py:22-47 | raises ContainerReuseError while a stack is held and changes nothing; otherwise holds a fresh stack, the order is the cached one or the sort's outcome, the result and callbacks are those of the enter loop, and afterwards the dict is cached, the order is cached when the sort succeeded, and the resources class when the loop finished and the class was found |
| AsyncContainer.AsyncExitStackContainer.EnterWith | src/exit_stack_container/container/async_container.py:29-47 | with a fresh stack and the cached order, the result and the callbacks left on the stack are `EnterOutcome`; the dict and the order stay cached, and the resources class is cached when the loop finished and the class was found |
| AsyncContainer.AsyncExitStackContainer.Aexit | src/exit_stack_container/container/async_container.py:49-53 | unwinds and drops a held stack; without one it does nothing |
| FlatContainer.AsyncExitStackContainer.constructor | src/exit_stack_container/container.py:29-33 | all caches start empty and no stack is held |
| FlatContainer.AsyncExitStackContainer.ResourcesClass | src/exit_stack_container/container.py:35-40 | returns the extracted class and caches it; a failed extraction raises and caches nothing |
| FlatContainer.AsyncExitStackContainer.Dependencies | src/exit_stack_container/container.py:42-48 | while the cache is empty, scans the class, caches the dict and sorts it; a failed sort raises with the dict cached and no order cached |
| FlatContainer.AsyncExitStackContainer.ResolutionOrder | src/exit_stack_container/container.py:50-55 | returns the cached order, or the sort's outcome for the class's descriptors, caching a success |
| FlatContainer.AsyncExitStackContainer.CacheOrder | src/exit_stack_container/container.py:53-54 | the order assigned is the sort's outcome for the fetched dict, the same one `dependencies` may already have cached; a success is cached |
| FlatContainer.AsyncExitStackContainer.CachedDependencies | src/exit_stack_container/container.py:42-48 | reading `dependencies` once the order is known returns the class's descriptors and leaves the cached order as it was, even when a class without descriptors is scanned and sorted again |
| FlatContainer.AsyncExitStackContainer.Aenter | src/exit_stack_container/container.py:65-92 | refuses reuse while a stack is held and changes nothing; otherwise the order is the cached one or the sort's outcome, its result and callbacks are those of the enter loop, and afterwards the dict is cached, the order is cached when the sort succeeded, and the resources class when the loop finished and the class was found |
| FlatContainer.AsyncExitStackContainer.EnterWith | src/exit_stack_container/container.py:74-92 | with a fresh stack and the cached order, the result and callbacks are `EnterOutcome`; the dict and the order stay cached, and the resources class is cached when the loop finished and the class was found |
| FlatContainer.AsyncExitStackContainer.Aexit | src/exit_stack_container/container.py:94-98 | unwinds and drops a held stack; without one it does nothing |
| Scenarios.EnterTwice | src/exit_stack_container/container/async_container.py:23-27 | a second enter without an exit raises ContainerReuseError, even after a failed first enter |
| Scenarios.ReenterAfterExit | src/exit_stack_container/container/async_container.py:22-53 | an exit runs the first enter's cleanups in reverse order, and a later enter is not refused and follows the same order; with factories as functions of their kwargs it also gives the same result |
| Scenarios.EnterAgain | src/exit_stack_container/container/container.py:41-46 | entering an exited container uses the order the last enter cached, or sorts again to the same outcome when nothing was cached |
| Scenarios.FailedEnterKeepsCleanup | src/exit_stack_container/container/async_container.py:31-39 | a factory raising after an earlier marked resource was made leaves that resource's cleanup on the stack, not run |

## Left out

- Scenarios.ReenterAfterExit: its `second == first` holds because a
  factory is modelled as a function of its kwargs (`Factory.call`) and the
  resources object as a value. The program calls every factory again on
  the second enter; a factory may make a new, different object, or raise
  this time, and a new resources object is built.

- Generic-type introspection is not modelled: `_extract_resources_class`,
  `_extract_resource_cls`, `extract_origin_base` and `extract_origin`.
  Each container carries an opaque outcome `resourcesType`: the class, or
  `InvalidContainerInheritance`. In the subpackage's `_extract_resource_cls`
  (`exit_stack_container/container/container.py:50-58`), a class without
  two generic arguments reaches the `raise` with `origin_base` never
  assigned, so the program raises `UnboundLocalError` there, not
  `InvalidContainerInheritance`; the model does not tell those apart.
- The class namespace (`vars(cls)`) is given as an ordered dict of
  attributes. Creating the class and calling `__set_name__` on each
  descriptor happen outside the model. The owner argument is ignored, as
  the code ignores it.
- Subclassing `AbstractContainer` is modelled by composition: a `base`
  field, since the two classes share only that state.
- `AsyncExitStack` is reduced to the push/unwind order:
  - exception chaining, suppression and the exit arguments are not
    modelled;
  - failures of several cleanups are not aggregated;
  - a cleanup that raises, or a cleanup getter that raises, is not
    modelled;
  - `await self._stack.__aenter__()` is a no-op and is omitted.
- Asyncio scheduling is not modelled. An awaited coroutine is modelled by
  the way it completes.
- `if self._stack:` is modelled as "a stack is held", because an
  `AsyncExitStack` is always truthy.
- `setattr` on the resources instance is modelled as a map from field name
  to value. The order in which the fields are set shows only in the
  `settings` overwrite.
- The `on_exit` decorator is not modelled. Its effect, the cleanup getter
  stored on the factory, is an optional field of the factory.
- `types.py`, `exceptions.py`, `models.py`, `defaults.py` and the package
  `__init__.py` are not part of this model, beyond the exception kinds and
  type names the core uses.
- AsyncContainer.ResolveAlong: takes the `dependencies` dict once, before
  the loop. The code reads the property on every iteration, but once the
  order has been computed each read is a cache hit returning the same dict.
