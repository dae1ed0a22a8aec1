/** The cleanup adapter `make_cleanup` (and its copy `_make_cleanup`): it
    turns a resource's teardown action, synchronous or asynchronous, into
    a callback the exit stack can always await. */
module Cleanup {

  /** A raw teardown action, as a cleanup getter returns it. `token` names
      the action; `isCoroutineFunction` is what `inspect.iscoroutinefunction`
      says of it; `returnsCoroutine` says whether a call of a plain function
      happens to return a coroutine anyway. */
  datatype CleanupFn = CleanupFn(token: nat, isCoroutineFunction: bool, returnsCoroutine: bool)

  /** The callback that is pushed onto the exit stack: the raw action
      itself, or the `_wrapper` closure around it. */
  datatype AsyncCallback = AsIs(fn: CleanupFn) | SyncWrapper(fn: CleanupFn)

  /** What running a teardown does, observably: a call of an action and
      the awaiting of the coroutine that a call produced. */
  datatype Effect = Called(token: nat) | Awaited(token: nat)

  /** Calling the raw action produces a coroutine. */
  predicate YieldsCoroutine(fn: CleanupFn) {
    fn.isCoroutineFunction || fn.returnsCoroutine
  }

  /** `make_cleanup`: a coroutine function is returned unchanged, anything
      else is wrapped. */
  function MakeCleanup(fn: CleanupFn): (cb: AsyncCallback)
    ensures cb.fn == fn
    ensures cb.AsIs? <==> fn.isCoroutineFunction
  {
    if fn.isCoroutineFunction then AsIs(fn) else SyncWrapper(fn)
  }

  /** Awaiting `cb()`, as the exit stack does. Calling a coroutine function
      yields a coroutine, which is awaited; the wrapper calls the action and
      awaits its result only when that result is a coroutine. */
  function Invoke(cb: AsyncCallback): seq<Effect> {
    match cb
    case AsIs(fn) => [Called(fn.token), Awaited(fn.token)]
    case SyncWrapper(fn) => [Called(fn.token)] + (if fn.returnsCoroutine then [Awaited(fn.token)] else [])
  }

  /** The adapted callback calls the raw action exactly once and awaits
      what that call produced exactly when it is a coroutine. */
  lemma AdaptedCleanupCallsOnce(fn: CleanupFn)
    ensures Invoke(MakeCleanup(fn)) == [Called(fn.token)] + (if YieldsCoroutine(fn) then [Awaited(fn.token)] else [])
  {
  }
}
