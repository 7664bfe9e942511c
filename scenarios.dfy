/**
 * Call sequences of the store's unit tests, with what each promises stated over the whole
 * sequence rather than one call.
 */
module Scenarios {
  import opened Outcomes
  import opened Seqs
  import opened Pipeline
  import opened Disposal
  import opened Fluxor

  /**
   * Two nested change scopes on a store with no scope open: begin twice, then dispose the
   * first guard and the second. Disposing the first only lowers the counter; disposing the
   * second closes the last scope and disposes that scope's handles, each once. The first
   * scope's handles are never disposed.
   */
  method NestedScopes(store: Store) returns (first: AsyncDisposableCallback<seq<Handle>>,
                                              second: AsyncDisposableCallback<seq<Handle>>)
    requires store.Valid() && store.beginMiddlewareChangeCount == 0
    modifies store`beginMiddlewareChangeCount, store`scopesBegun, store`log
    ensures store.Valid() && store.beginMiddlewareChangeCount == 0
    ensures first.isDisposed && second.isDisposed && first.invocations == 1 && second.invocations == 1
    ensures first.callback == ScopeHandles(store.middlewares, old(store.scopesBegun))
    ensures second.callback == ScopeHandles(store.middlewares, old(store.scopesBegun) + 1)
    ensures store.log == old(store.log) + Began(first.callback) + Began(second.callback) + Disposals(second.callback)
    ensures forall h :: h in first.callback ==> DisposedHandle(h) !in store.log[|old(store.log)|..]
  {
    first := store.BeginInternalMiddlewareChange();
    second := store.BeginInternalMiddlewareChange();
    var r1 := store.DisposeMiddlewareChange(first);
    var r2 := store.DisposeMiddlewareChange(second);
    var seg := store.log[|old(store.log)|..];
    assert seg == Began(first.callback) + Began(second.callback) + Disposals(second.callback);
    forall h | h in first.callback ensures DisposedHandle(h) !in seg {
      assert h.scope == old(store.scopesBegun);
      forall i | 0 <= i < |second.callback| ensures second.callback[i] != h {
        assert second.callback[i].scope == old(store.scopesBegun) + 1;
      }
    }
  }

  /**
   * A dispatch inside a change scope on an activated store: the action is dropped. No
   * middleware is asked about it and nothing is queued; the log holds only the scope's
   * handles, begun and then disposed when the scope closes.
   */
  method DispatchInsideScope(store: Store, action: Action) returns (guard: AsyncDisposableCallback<seq<Handle>>)
    requires store.Valid() && store.hasActivatedStore && store.beginMiddlewareChangeCount == 0
    modifies store`beginMiddlewareChangeCount, store`scopesBegun, store`queuedActions, store`isDispatching, store`log
    ensures store.Valid() && store.beginMiddlewareChangeCount == 0 && store.queuedActions == []
    ensures guard.isDisposed && guard.callback == ScopeHandles(store.middlewares, old(store.scopesBegun))
    ensures store.log == old(store.log) + Began(guard.callback) + Disposals(guard.callback)
    ensures forall i :: |old(store.log)| <= i < |store.log| ==> !IsActionEvent(store.log[i])
  {
    guard := store.BeginInternalMiddlewareChange();
    var dispatched := store.Dispatch(Some(action));
    var closed := store.DisposeMiddlewareChange(guard);
    forall i | |old(store.log)| <= i < |store.log| ensures !IsActionEvent(store.log[i]) {
      var k := i - |old(store.log)|;
      if k < |guard.callback| {
        assert store.log[i] == BeganChange(guard.callback[k]);
      } else {
        assert store.log[i] == DisposedHandle(guard.callback[k - |guard.callback|]);
      }
    }
  }

  /**
   * An activated store, outside any change scope, dispatching the same action `n` times:
   * every registered feature is notified of it `n` times when no middleware vetoes it, and
   * never otherwise. None of the dispatches is lost.
   */
  method DispatchTimes(store: Store, action: Action, n: nat, f: Feature)
    requires store.Valid() && store.hasActivatedStore && store.beginMiddlewareChangeCount <= 0
    modifies store`queuedActions, store`isDispatching, store`log
    ensures store.Valid()
    ensures |old(store.log)| <= |store.log| && store.log[..|old(store.log)|] == old(store.log)
    ensures Count(store.log[|old(store.log)|..], NotifiedFeature(f, action)) ==
            (if AllMay(store.middlewares, action, store.hooks) && f in store.featuresByName.Values then n else 0)
  {
    ghost var x := NotifiedFeature(f, action);
    ghost var reached := AllMay(store.middlewares, action, store.hooks) && f in store.featuresByName.Values;
    assert store.log[|old(store.log)|..] == [];
    for i := 0 to n
      invariant store.Valid() && store.hasActivatedStore
      invariant |old(store.log)| <= |store.log| && store.log[..|old(store.log)|] == old(store.log)
      invariant Count(store.log[|old(store.log)|..], x) == (if reached then i else 0)
    {
      ghost var before := store.log;
      var r := store.Dispatch(Some(action));
      ghost var seg := store.log[|before|..];
      FeatureNotifiedOnce(seg, action, store.Cfg(), f);
      CountGrowth(old(store.log), before, store.log, x);
    }
  }

  /**
   * An activated store, outside any change scope, dispatching `actions` one call after another,
   * as an effect dispatches the actions it emits: the log grows exactly as one drain of the
   * whole sequence would grow it, and every registered feature is notified of each action
   * nobody vetoes once per occurrence.
   */
  method DispatchEach(store: Store, actions: seq<Action>)
    requires store.Valid() && store.hasActivatedStore && store.beginMiddlewareChangeCount <= 0
    modifies store`queuedActions, store`isDispatching, store`log
    ensures store.Valid() && store.queuedActions == []
    ensures |old(store.log)| <= |store.log| && store.log[..|old(store.log)|] == old(store.log)
    ensures DrainedAs(store.log[|old(store.log)|..], actions, store.Cfg())
    ensures forall f, x :: Count(store.log[|old(store.log)|..], NotifiedFeature(f, x)) ==
              (if AllMay(store.middlewares, x, store.hooks) && f in store.featuresByName.Values then Count(actions, x) else 0)
  {
    ghost var cfg := store.Cfg();
    assert store.log[|old(store.log)|..] == [];
    for i := 0 to |actions|
      invariant store.Valid() && store.hasActivatedStore && store.Cfg() == cfg
      invariant |old(store.log)| <= |store.log| && store.log[..|old(store.log)|] == old(store.log)
      invariant DrainedAs(store.log[|old(store.log)|..], actions[..i], cfg)
    {
      ghost var before := store.log;
      var r := store.Dispatch(Some(actions[i]));
      DrainStep(old(store.log), before, store.log, actions, i, actions[i], cfg);
    }
    assert actions[..|actions|] == actions;
    forall f, x ensures Count(store.log[|old(store.log)|..], NotifiedFeature(f, x)) ==
              (if AllMay(cfg.middlewares, x, cfg.hooks) && f in cfg.features then Count(actions, x) else 0) {
      DrainNotifiesPerOccurrence(store.log[|old(store.log)|..], actions, cfg, f, x);
    }
  }
}
