/**
 * The store: the feature registry, the middleware and effect lists, the queue of pending
 * actions, and the flags and counter that control when actions are processed.
 *
 * Every public method is one atomic step: the store's lock is held for the whole call, so
 * no other call interleaves with it. An effect's `HandleAsync` that dispatches further
 * actions waits for that lock, so those actions are later `Dispatch` calls here. Every call
 * the store makes into a middleware, a feature or an effect is appended to the ghost `log`,
 * except `GetName`, which `AddFeature` asks of the feature it registers.
 */
module Fluxor {
  import opened Outcomes
  import opened Seqs
  import opened FeatureNames
  import opened Pipeline
  import opened Disposal

  class Store {
    /** What the registered middlewares answer to `MayDispatchAction` and effects to `ShouldReactToAction`. */
    const hooks: Hooks

    /** Registered features, keyed by the folded form of their names (keys compare ignoring case). */
    var featuresByName: map<string, Feature>
    var effects: seq<EffectId>
    var middlewares: seq<MiddlewareId>
    var reversedMiddlewares: seq<MiddlewareId>
    /** Actions dispatched but not yet processed, oldest first. */
    var queuedActions: seq<Action>
    var isDispatching: bool
    var beginMiddlewareChangeCount: int
    var hasActivatedStore: bool
    /** Whether the `Initialized` task has completed. */
    var initialized: bool
    /** How many change scopes have begun; names the handles each scope collects. */
    var scopesBegun: nat
    ghost var log: seq<Event>

    /** The shape invariants every operation keeps, also in the middle of a drain. */
    ghost predicate Consistent()
      reads this`reversedMiddlewares, this`middlewares, this`featuresByName
    {
      reversedMiddlewares == Reverse(middlewares) &&
      (forall key :: key in featuresByName ==> key == Fold(featuresByName[key].name))
    }

    /**
     * The invariant between calls: no drain is running, `Initialized` has completed exactly
     * when the store is activated, and an activated store has processed everything queued.
     */
    ghost predicate Valid()
      reads this
    {
      Consistent() && !isDispatching && initialized == hasActivatedStore &&
      (hasActivatedStore ==> queuedActions == [])
    }

    /** What the drain loop reads from the store. */
    ghost function Cfg(): Config
      reads this`middlewares, this`featuresByName, this`effects
    {
      Config(middlewares, featuresByName.Values, effects, hooks)
    }

    /** The `Features` dictionary's indexer: the feature registered under `name`, ignoring case. */
    function FeatureNamed(name: string): (r: Option<Feature>)
      reads this`reversedMiddlewares, this`middlewares, this`featuresByName
      requires Consistent()
      ensures r.Some? <==> exists f :: f in featuresByName.Values && SameIgnoringCase(f.name, name)
      ensures r.Some? ==> r.value in featuresByName.Values && SameIgnoringCase(r.value.name, name)
    {
      if Fold(name) in featuresByName then
        assert featuresByName[Fold(name)] in featuresByName.Values;
        Some(featuresByName[Fold(name)])
      else
        assert forall f :: f in featuresByName.Values ==> !SameIgnoringCase(f.name, name) by {
          forall f | f in featuresByName.Values ensures !SameIgnoringCase(f.name, name) {
            var key :| key in featuresByName && featuresByName[key] == f;
          }
        }
        None
    }

    constructor (hooks: Hooks)
      ensures Valid() && this.hooks == hooks
      ensures featuresByName == map[] && effects == [] && middlewares == [] && queuedActions == []
      ensures !hasActivatedStore && beginMiddlewareChangeCount == 0 && scopesBegun == 0 && log == []
    {
      this.hooks := hooks;
      featuresByName := map[];
      effects := [];
      middlewares := [];
      reversedMiddlewares := [];
      queuedActions := [];
      isDispatching := false;
      beginMiddlewareChangeCount := 0;
      hasActivatedStore := false;
      initialized := false;
      scopesBegun := 0;
      log := [];
    }

    /** Creates a store and dispatches the `StoreInitializedAction` marker, which stays queued until activation. */
    static method Initialize(hooks: Hooks) returns (store: Store)
      ensures fresh(store) && store.Valid() && store.hooks == hooks
      ensures store.queuedActions == [StoreInitializedAction]
      ensures store.featuresByName == map[] && store.effects == [] && store.middlewares == []
      ensures !store.hasActivatedStore && store.beginMiddlewareChangeCount == 0 && store.scopesBegun == 0
      ensures store.log == []
    {
      store := new Store(hooks);
      var outcome := store.Dispatch(Some(StoreInitializedAction));
    }

    /**
     * Registers a feature under its name. A null feature, or a name equal ignoring case to a
     * registered one, throws and leaves the registry as it was.
     */
    method AddFeature(feature: Option<Feature>) returns (r: Outcome)
      requires Valid()
      modifies this`featuresByName
      ensures Valid()
      ensures feature.None? ==> r == Fail(ArgumentNull) && featuresByName == old(featuresByName)
      ensures feature.Some? && Fold(feature.value.name) in old(featuresByName) ==>
                r == Fail(DuplicateName) && featuresByName == old(featuresByName)
      ensures feature.Some? && Fold(feature.value.name) !in old(featuresByName) ==>
                r == Pass && featuresByName == old(featuresByName)[Fold(feature.value.name) := feature.value] &&
                FeatureNamed(feature.value.name) == Some(feature.value)
      ensures feature.Some? ==>
                (r == Fail(DuplicateName) <==>
                 exists g :: g in old(featuresByName).Values && SameIgnoringCase(g.name, feature.value.name))
    {
      if feature.None? {
        return Fail(ArgumentNull);
      }
      var key := Fold(feature.value.name);
      if key in featuresByName {
        assert featuresByName[key] in featuresByName.Values;
        return Fail(DuplicateName);
      }
      forall g | g in featuresByName.Values ensures !SameIgnoringCase(g.name, feature.value.name) {
        var k :| k in featuresByName && featuresByName[k] == g;
      }
      featuresByName := featuresByName[key := feature.value];
      return Pass;
    }

    /**
     * Dispatches an action. A null action throws. Inside a middleware-change scope the call does
     * nothing. Otherwise the action is queued, and once the store is activated the queue is
     * drained, which (the queue being empty between calls) processes exactly this action.
     */
    method Dispatch(action: Option<Action>) returns (r: Outcome)
      requires Valid()
      modifies this`queuedActions, this`isDispatching, this`log
      ensures Valid()
      ensures r == (if action.None? then Fail(ArgumentNull) else Pass)
      ensures action.None? || beginMiddlewareChangeCount > 0 ==>
                queuedActions == old(queuedActions) && log == old(log)
      ensures action.Some? && beginMiddlewareChangeCount <= 0 && !hasActivatedStore ==>
                queuedActions == old(queuedActions) + [action.value] && log == old(log)
      ensures action.Some? && beginMiddlewareChangeCount <= 0 && hasActivatedStore ==>
                queuedActions == [] && |old(log)| <= |log| && log[..|old(log)|] == old(log) &&
                ProcessedAs(log[|old(log)|..], action.value, Cfg())
    {
      if action.None? {
        return Fail(ArgumentNull);
      }
      if beginMiddlewareChangeCount > 0 {
        return Pass;
      }
      queuedActions := queuedActions + [action.value];
      if !hasActivatedStore {
        return Pass;
      }
      assert queuedActions == [action.value];
      DequeueActions();
      DrainedSingle(log[|old(log)|..], action.value, Cfg());
      return Pass;
    }

    /** Registers an effect; a null effect throws. Effects need not be distinct. */
    method AddEffect(effect: Option<EffectId>) returns (r: Outcome)
      requires Valid()
      modifies this`effects
      ensures Valid()
      ensures effect.None? ==> r == Fail(ArgumentNull) && effects == old(effects)
      ensures effect.Some? ==> r == Pass && effects == old(effects) + [effect.value]
    {
      if effect.None? {
        return Fail(ArgumentNull);
      }
      effects := effects + [effect.value];
      return Pass;
    }

    /**
     * Appends a middleware to the forward list and prepends it to the reversed list. On an
     * activated store the new middleware is initialized, then told all middlewares are.
     */
    method AddMiddleware(middleware: MiddlewareId)
      requires Valid()
      modifies this`middlewares, this`reversedMiddlewares, this`log
      ensures Valid()
      ensures middlewares == old(middlewares) + [middleware]
      ensures reversedMiddlewares == [middleware] + old(reversedMiddlewares)
      ensures log == old(log) +
                (if hasActivatedStore then [InitializedMiddleware(middleware), AfterInitializeAll(middleware)] else [])
    {
      ReverseAppend(middlewares, middleware);
      middlewares := middlewares + [middleware];
      reversedMiddlewares := [middleware] + reversedMiddlewares;
      if hasActivatedStore {
        log := log + [InitializedMiddleware(middleware)];
        log := log + [AfterInitializeAll(middleware)];
      }
    }

    /**
     * Opens a middleware-change scope: raises the suppression counter and asks every middleware,
     * in order, for a handle. The returned guard's callback is that scope's handles.
     */
    method BeginInternalMiddlewareChange() returns (guard: AsyncDisposableCallback<seq<Handle>>)
      requires Valid()
      modifies this`beginMiddlewareChangeCount, this`scopesBegun, this`log
      ensures Valid()
      ensures beginMiddlewareChangeCount == old(beginMiddlewareChangeCount) + 1
      ensures scopesBegun == old(scopesBegun) + 1
      ensures fresh(guard) && guard.Valid() && !guard.isDisposed
      ensures guard.callback == ScopeHandles(middlewares, old(scopesBegun))
      ensures log == old(log) + Began(guard.callback)
    {
      beginMiddlewareChangeCount := beginMiddlewareChangeCount + 1;
      var disposables: seq<Handle> := [];
      for i := 0 to |middlewares|
        invariant beginMiddlewareChangeCount == old(beginMiddlewareChangeCount) + 1
        invariant scopesBegun == old(scopesBegun)
        invariant disposables == ScopeHandles(middlewares[..i], scopesBegun)
        invariant log == old(log) + Began(disposables)
      {
        var handle := Handle(middlewares[i], scopesBegun);
        log := log + [BeganChange(handle)];
        disposables := disposables + [handle];
      }
      assert middlewares[..|middlewares|] == middlewares;
      scopesBegun := scopesBegun + 1;
      guard := new AsyncDisposableCallback(disposables);
    }

    /**
     * Closes a middleware-change scope: lowers the counter and, only when it reaches zero,
     * disposes the handles of the scope being closed, in order.
     */
    method EndMiddlewareChange(disposables: seq<Handle>)
      requires Valid()
      modifies this`beginMiddlewareChangeCount, this`log
      ensures Valid()
      ensures beginMiddlewareChangeCount == old(beginMiddlewareChangeCount) - 1
      ensures log == old(log) + (if beginMiddlewareChangeCount == 0 then Disposals(disposables) else [])
    {
      beginMiddlewareChangeCount := beginMiddlewareChangeCount - 1;
      if beginMiddlewareChangeCount == 0 {
        for i := 0 to |disposables|
          invariant beginMiddlewareChangeCount == old(beginMiddlewareChangeCount) - 1
          invariant log == old(log) + Disposals(disposables[..i])
        {
          log := log + [DisposedHandle(disposables[i])];
        }
        assert disposables[..|disposables|] == disposables;
      }
    }

    /**
     * Disposing a scope's guard: the first time, the guard's callback closes the scope;
     * a second time, the guard throws and the scope is left alone.
     */
    method DisposeMiddlewareChange(guard: AsyncDisposableCallback<seq<Handle>>) returns (r: Outcome)
      requires Valid() && guard.Valid()
      modifies this`beginMiddlewareChangeCount, this`log, guard
      ensures Valid() && guard.Valid() && guard.isDisposed
      ensures old(guard.isDisposed) ==>
                r == Fail(ObjectDisposed) && guard.invocations == old(guard.invocations) &&
                beginMiddlewareChangeCount == old(beginMiddlewareChangeCount) && log == old(log)
      ensures !old(guard.isDisposed) ==>
                r == Pass && guard.invocations == 1 &&
                beginMiddlewareChangeCount == old(beginMiddlewareChangeCount) - 1 &&
                log == old(log) + (if beginMiddlewareChangeCount == 0 then Disposals(guard.callback) else [])
    {
      var callback := guard.DisposeAsync();
      if callback.Failure? {
        return Fail(callback.error);
      }
      EndMiddlewareChange(callback.value);
      return Pass;
    }

    /**
     * Walks the effect list in order, asking each entry whether it reacts to `action` and
     * calling `HandleAsync` on it before moving on when it does.
     */
    method TriggerEffects(action: Action)
      modifies this`log
      ensures log == old(log) + Handles(effects, action, hooks)
    {
      var effs := effects;
      for i := 0 to |effs|
        invariant log == old(log) + Handles(effs[..i], action, hooks)
      {
        ghost var before := log;
        HandlesAppend(effs[..i], effs[i], action, hooks);
        assert effs[..i + 1] == effs[..i] + [effs[i]];
        log := log + [AskedShouldReact(effs[i], action)];
        if hooks.shouldReact(effs[i], action) {
          log := log + [HandledByEffect(effs[i], action)];
          assert log == before + EffectStep(effs[i], action, hooks);
        } else {
          assert log == before + EffectStep(effs[i], action, hooks);
        }
      }
      assert effs[..|effs|] == effs;
    }

    /** Initializes every middleware in order, then tells each, in order, that all are initialized. */
    method InitializeMiddlewares()
      modifies this`log
      ensures log == old(log) + Inits(middlewares) + AfterInits(middlewares)
    {
      for i := 0 to |middlewares|
        invariant log == old(log) + Inits(middlewares[..i])
      {
        log := log + [InitializedMiddleware(middlewares[i])];
      }
      assert middlewares[..|middlewares|] == middlewares;
      ghost var initialized := log;
      for i := 0 to |middlewares|
        invariant log == initialized + AfterInits(middlewares[..i])
      {
        log := log + [AfterInitializeAll(middlewares[i])];
      }
    }

    method ExecuteMiddlewareBeforeDispatch(action: Action)
      modifies this`log
      ensures log == old(log) + Befores(middlewares, action)
    {
      for i := 0 to |middlewares|
        invariant log == old(log) + Befores(middlewares[..i], action)
      {
        log := log + [BeforeDispatch(middlewares[i], action)];
      }
      assert middlewares[..|middlewares|] == middlewares;
    }

    /** After-hooks run over the forward list, in registration order, like the before-hooks. */
    method ExecuteMiddlewareAfterDispatch(action: Action)
      modifies this`log
      ensures log == old(log) + Afters(middlewares, action)
    {
      for i := 0 to |middlewares|
        invariant log == old(log) + Afters(middlewares[..i], action)
      {
        log := log + [AfterDispatch(middlewares[i], action)];
      }
      assert middlewares[..|middlewares|] == middlewares;
    }

    /** Asks the middlewares, in order, whether `action` may be dispatched, stopping at the first "no". */
    method AllMiddlewaresMayDispatch(action: Action) returns (ok: bool)
      modifies this`log
      ensures ok == AllMay(middlewares, action, hooks)
      ensures log == old(log) + Asks(middlewares, action, hooks)
    {
      var mws := middlewares;
      ok := true;
      var i := 0;
      while i < |mws| && ok
        invariant 0 <= i <= |mws|
        invariant ok == AllMay(mws[..i], action, hooks)
        invariant log == old(log) + Asks(mws[..i], action, hooks)
      {
        assert mws[..i + 1] == mws[..i] + [mws[i]];
        AsksAppend(mws[..i], mws[i], action, hooks);
        AllMayAppend(mws[..i], mws[i], action, hooks);
        log := log + [AskedMayDispatch(mws[i], action)];
        ok := hooks.mayDispatch(mws[i], action);
        i := i + 1;
      }
      if ok {
        assert mws[..i] == mws;
      } else {
        AsksStopAtVeto(mws[..i], mws[i..], action, hooks);
        assert mws[..i] + mws[i..] == mws;
      }
    }

    /**
     * Notifies every registered feature of `action` once. The dictionary fixes no order among
     * them; `order` is the order this enumeration visited them in.
     */
    method NotifyFeatures(action: Action) returns (ghost order: seq<Feature>)
      modifies this`log
      ensures IsEnumeration(order, featuresByName.Values)
      ensures log == old(log) + Notes(order, action)
    {
      var features := featuresByName.Values;
      var rest := features;
      order := [];
      while rest != {}
        invariant rest <= features
        invariant log == old(log) + Notes(order, action)
        invariant |order| + |rest| == |features|
        invariant forall i :: 0 <= i < |order| ==> order[i] in features - rest
        invariant forall f :: f in features - rest ==> f in order
        invariant forall i, j :: 0 <= i < j < |order| ==> order[i] != order[j]
        decreases rest
      {
        var feature :| feature in rest;
        log := log + [NotifiedFeature(feature, action)];
        assert Notes(order + [feature], action) == Notes(order, action) + [NotifiedFeature(feature, action)];
        order := order + [feature];
        rest := rest - {feature};
      }
    }

    /**
     * The body of the drain loop for one dequeued action: the veto questions, and unless a
     * middleware vetoes, the before-hooks, the features, the after-hooks and the effects.
     */
    method ProcessAction(action: Action)
      modifies this`log
      ensures |old(log)| <= |log| && log[..|old(log)|] == old(log)
      ensures ProcessedAs(log[|old(log)|..], action, Cfg())
    {
      var mayDispatch := AllMiddlewaresMayDispatch(action);
      if mayDispatch {
        ghost var asked := log;
        ExecuteMiddlewareBeforeDispatch(action);
        ghost var beforeHooks := log;
        ghost var order := NotifyFeatures(action);
        ghost var notified := log;
        ExecuteMiddlewareAfterDispatch(action);
        ghost var afterHooks := log;
        TriggerEffects(action);
        PassedPipeline(old(log), asked, beforeHooks, notified, afterHooks, log, order, action, Cfg());
      } else {
        assert log[|old(log)|..] == Asks(middlewares, action, hooks);
      }
    }

    /**
     * Drains the queue unless a drain is already running. Each dequeued action is asked of the
     * middlewares; if none vetoes it, the before-hooks run, every feature is notified, the
     * after-hooks run and the reacting effects are triggered.
     */
    method DequeueActions()
      requires Consistent()
      modifies this`queuedActions, this`isDispatching, this`log
      ensures isDispatching == old(isDispatching)
      ensures old(isDispatching) ==> queuedActions == old(queuedActions) && log == old(log)
      ensures !old(isDispatching) ==>
                queuedActions == [] && |old(log)| <= |log| && log[..|old(log)|] == old(log) &&
                DrainedAs(log[|old(log)|..], old(queuedActions), Cfg())
    {
      if isDispatching {
        return;
      }
      isDispatching := true;
      ghost var cfg := Cfg();
      ghost var done := 0;
      assert log[|old(log)|..] == [];
      while queuedActions != []
        invariant done <= |old(queuedActions)| && queuedActions == old(queuedActions)[done..]
        invariant |old(log)| <= |log| && log[..|old(log)|] == old(log)
        invariant DrainedAs(log[|old(log)|..], old(queuedActions)[..done], cfg)
        invariant isDispatching && Cfg() == cfg
        decreases |queuedActions|
      {
        var action := queuedActions[0];
        queuedActions := queuedActions[1..];
        ghost var before := log;
        ProcessAction(action);
        DrainStep(old(log), before, log, old(queuedActions), done, action, cfg);
        done := done + 1;
      }
      assert old(queuedActions)[..done] == old(queuedActions);
      isDispatching := false;
    }

    /**
     * The activation callback. A second call does nothing. The first marks the store activated,
     * initializes the middlewares, drains everything queued so far in queue order and
     * completes `Initialized`.
     */
    method ActivateStore()
      requires Valid()
      modifies this`hasActivatedStore, this`initialized, this`queuedActions, this`isDispatching, this`log
      ensures Valid() && hasActivatedStore
      ensures old(hasActivatedStore) ==> queuedActions == old(queuedActions) && log == old(log)
      ensures !old(hasActivatedStore) ==>
                var p := |old(log)| + 2 * |middlewares|;
                p <= |log| && log[..p] == old(log) + Inits(middlewares) + AfterInits(middlewares) &&
                DrainedAs(log[p..], old(queuedActions), Cfg())
    {
      if hasActivatedStore {
        return;
      }
      hasActivatedStore := true;
      InitializeMiddlewares();
      ghost var initializedLog := log;
      DequeueActions();
      ghost var p := |initializedLog|;
      assert p == |old(log)| + 2 * |middlewares|;
      assert DrainedAs(log[p..], old(queuedActions), Cfg());
      initialized := true;
    }
  }

  /** One more action processed at the end of a drain extends the drain by that action. */
  lemma DrainStep(start: seq<Event>, before: seq<Event>, after: seq<Event>, queue: seq<Action>, done: nat,
                  action: Action, cfg: Config)
    requires done < |queue| && queue[done] == action
    requires |start| <= |before| && before[..|start|] == start
    requires DrainedAs(before[|start|..], queue[..done], cfg)
    requires |before| <= |after| && after[..|before|] == before
    requires ProcessedAs(after[|before|..], action, cfg)
    ensures |start| <= |after| && after[..|start|] == start
    ensures DrainedAs(after[|start|..], queue[..done + 1], cfg)
  {
    ProcessedAsLength(after[|before|..], action, cfg);
    ChunkedExtend(start, before, after, queue, done, a => SegLen(a, cfg), (chunk, a) => ProcessedAs(chunk, a, cfg));
  }
}