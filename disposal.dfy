/**
 * The one-shot scope guard handed out by `BeginInternalMiddlewareChange`: the first dispose
 * runs the stored callback, a second dispose throws.
 *
 * The callback is a value of type `F` (for the store, the per-middleware handles its closure
 * captured). Disposing hands the callback back to the caller, who runs it; `invocations`
 * counts how many times that has happened.
 */
module Disposal {
  import opened Outcomes

  class AsyncDisposableCallback<F> {
    const callback: F
    var isDisposed: bool
    ghost var invocations: nat

    /** The callback has run exactly when the guard is disposed, and then once. */
    ghost predicate Valid()
      reads this
    {
      invocations == (if isDisposed then 1 else 0)
    }

    constructor (callback: F)
      ensures Valid()
      ensures this.callback == callback && !isDisposed && invocations == 0
    {
      this.callback := callback;
      isDisposed := false;
      invocations := 0;
    }

    /** Construction with a null callback throws; any other callback gives a fresh, undisposed guard. */
    static method Create(callback: Option<F>) returns (r: Result<AsyncDisposableCallback<F>>)
      ensures callback.None? <==> r.Failure?
      ensures r.Failure? ==> r.error == ArgumentNull
      ensures r.Success? ==> fresh(r.value) && r.value.Valid() && !r.value.isDisposed &&
                             r.value.callback == callback.value
    {
      if callback.None? {
        return Failure(ArgumentNull);
      }
      var guard := new AsyncDisposableCallback(callback.value);
      return Success(guard);
    }

    /**
     * The first call marks the guard disposed and returns the callback to run; every later
     * call throws `ObjectDisposedException` and runs nothing.
     */
    method DisposeAsync() returns (r: Result<F>)
      requires Valid()
      modifies this
      ensures Valid()
      ensures old(isDisposed) ==> isDisposed
      ensures old(isDisposed) ==> r == Failure(ObjectDisposed) && invocations == old(invocations)
      ensures !old(isDisposed) ==> isDisposed && r == Success(callback) && invocations == old(invocations) + 1
    {
      if isDisposed {
        return Failure(ObjectDisposed);
      }
      isDisposed := true;
      invocations := invocations + 1;
      return Success(callback);
    }
  }
}
