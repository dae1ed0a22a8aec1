/** The part of `contextlib.AsyncExitStack` that the container relies on:
    callbacks pushed with `push_async_callback` are awaited, newest first,
    when the stack is exited. */
module ExitStack {
  import opened Cleanup

  /** What unwinding a list of callbacks does: the last one pushed runs
      first. */
  function Unwind(callbacks: seq<AsyncCallback>): seq<Effect> {
    if |callbacks| == 0 then []
    else Invoke(callbacks[|callbacks| - 1]) + Unwind(callbacks[..|callbacks| - 1])
  }

  function Reverse<T>(s: seq<T>): (r: seq<T>)
    ensures |r| == |s|
    ensures forall i :: 0 <= i < |s| ==> r[i] == s[|s| - 1 - i]
  {
    if |s| == 0 then [] else [s[|s| - 1]] + Reverse(s[..|s| - 1])
  }

  /** The actions that a list of effects calls, in call order. */
  function CalledTokens(effects: seq<Effect>): seq<nat> {
    if |effects| == 0 then []
    else (if effects[0].Called? then [effects[0].token] else []) + CalledTokens(effects[1..])
  }

  function Tokens(callbacks: seq<AsyncCallback>): (r: seq<nat>)
    ensures |r| == |callbacks|
    ensures forall i :: 0 <= i < |callbacks| ==> r[i] == callbacks[i].fn.token
  {
    if |callbacks| == 0 then [] else Tokens(callbacks[..|callbacks| - 1]) + [callbacks[|callbacks| - 1].fn.token]
  }

  lemma {:induction false} CalledTokensConcat(a: seq<Effect>, b: seq<Effect>)
    ensures CalledTokens(a + b) == CalledTokens(a) + CalledTokens(b)
  {
    if |a| > 0 {
      assert (a + b)[1..] == a[1..] + b;
      CalledTokensConcat(a[1..], b);
    } else {
      assert a + b == b;
    }
  }

  /** Every callback's action is called exactly once, and the actions are
      called in the reverse of the order in which they were pushed. */
  lemma {:induction false} UnwindCallsInReverse(callbacks: seq<AsyncCallback>)
    ensures CalledTokens(Unwind(callbacks)) == Reverse(Tokens(callbacks))
  {
    if |callbacks| > 0 {
      var init, last := callbacks[..|callbacks| - 1], callbacks[|callbacks| - 1];
      UnwindCallsInReverse(init);
      CalledTokensConcat(Invoke(last), Unwind(init));
      assert CalledTokens(Invoke(last)) == [last.fn.token] by {
        assert Invoke(last)[0] == Called(last.fn.token);
        if |Invoke(last)| == 2 {
          assert Invoke(last)[1..][1..] == [];
        }
      }
      assert Tokens(callbacks) == Tokens(init) + [last.fn.token];
    }
  }

  /** Unwinding a stack that was extended by one callback runs that
      callback first and then unwinds the rest. */
  lemma UnwindPushed(callbacks: seq<AsyncCallback>, cb: AsyncCallback)
    ensures Unwind(callbacks + [cb]) == Invoke(cb) + Unwind(callbacks)
  {
    assert (callbacks + [cb])[..|callbacks|] == callbacks;
  }

  class AsyncExitStack {
    /** The pushed callbacks, oldest first. */
    var callbacks: seq<AsyncCallback>

    constructor ()
      ensures callbacks == []
    {
      callbacks := [];
    }

    /** `push_async_callback(cb)`. */
    method PushAsyncCallback(cb: AsyncCallback)
      modifies this
      ensures callbacks == old(callbacks) + [cb]
    {
      callbacks := callbacks + [cb];
    }

    /** `__aexit__`: pops and awaits the callbacks one at a time, newest
        first, leaving the stack empty. */
    method Aexit() returns (effects: seq<Effect>)
      modifies this
      ensures effects == Unwind(old(callbacks))
      ensures callbacks == []
    {
      effects := [];
      while |callbacks| > 0
        invariant effects + Unwind(callbacks) == Unwind(old(callbacks))
        decreases |callbacks|
      {
        var cb := callbacks[|callbacks| - 1];
        callbacks := callbacks[..|callbacks| - 1];
        effects := effects + Invoke(cb);
      }
    }
  }
}
