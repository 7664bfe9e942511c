# Blazor.Fluxor store: a Dafny model

This project models the dispatch engine of the Blazor.Fluxor store, together with the one-shot
scope guard that its middleware-change scopes hand out.

The store keeps several pieces of state:
- a registry of features whose names are compared ignoring case;
- a forward list of middlewares and its reverse;
- a list of effects;
- a FIFO queue of pending actions;
- three control variables: `HasActivatedStore`, `IsDispatching` and `BeginMiddlewareChangeCount`.

Dispatching an action does one of three things:
- it throws on null;
- it is dropped while a middleware-change scope is open;
- otherwise it is queued. The queue is drained only once the store has been activated.

The drain does not re-enter itself. For each dequeued action it:
1. asks the middlewares, in order, whether the action may be dispatched, and stops at the first "no";
2. if nobody vetoes it, runs every middleware's before-hook;
3. notifies every registered feature once;
4. runs every after-hook;
5. walks the effect list, asking each entry whether it reacts to the action and calling its `HandleAsync` when it does.

Activation happens once:
- every middleware is initialized, then each is told that all are initialized;
- the queue is drained;
- the `Initialized` task completes.

Beginning a middleware-change scope raises a counter and collects one handle per middleware. Ending a scope lowers the counter. When the counter reaches zero, the handles of the scope being ended are disposed.

How the model is built:
- **Store.** `Fluxor.Store` is a Dafny class. Its fields are the store's fields, and each public method is one atomic step, since the store's lock is held for the whole call.
- **Hook calls.** Every call the store makes into a middleware, a feature or an effect is appended to a ghost event log. The one exception is `GetName`, which `AddFeature` asks of the feature it registers. The `ShouldReactToAction` questions are logged, like the `MayDispatchAction` ones.
- **Middleware and effect answers.** What a middleware answers to `MayDispatchAction` and what an effect answers to `ShouldReactToAction` are given by a `Hooks` record fixed when the store is created.
- **What each call does.** The contracts relate the log before and after each call through the specification functions of module `Pipeline`:
  - `ProcessedAs` says what processing one action appends;
  - `DrainedAs` says what draining a queue appends.

  Lemmas about those functions state the pipeline's promises: veto, stage order, exactly-once notification and effect selection.
- **Feature names.** Module `FeatureNames` gives the model's registry key, which ignores the case of ASCII letters. Under the model's key, two names are the same key exactly when they differ only in the case of their letters. The source's comparer can merge more names than this (see "## Left out").
- **Actions an effect emits.** The effect's `HandleAsync` waits for the store's lock, so the model treats those actions as later `Dispatch` calls. Module `Scenarios` states the store's unit tests as call sequences with contracts.

The model follows the code in two places where a reader might expect otherwise:
- After-hooks run over the forward middleware list, in registration order, just as the before-hooks do. `ReversedMiddlewares` is kept as the reverse of `Middlewares` (an invariant of the class), but nothing reads it.
- When the counter reaches zero, only the handles captured by the scope being closed are disposed. Handles collected by scopes opened earlier and closed while the counter was still positive are never disposed (`Scenarios.NestedScopes`).

Files:
- `outcomes.dfy`: the exceptions the core can throw, and the result types.
- `seqs.dfy`: reversal and occurrence counting.
- `names.dfy`: case-insensitive feature names.
- `disposal.dfy`: `AsyncDisposableCallback`.
- `pipeline.dfy`: the event log and the specification of one action and of a drain.
- `store.dfy`: the `Store` class.
- `scenarios.dfy`: call sequences from the unit tests.

## Model

| member | source | states |
|---|---|---|
| Fluxor.Store.constructor | src/Blazor.Fluxor/Store.cs:52-61 | a new store has no features, effects, middlewares, queued actions or open scope, and is not activated |
| Fluxor.Store.Initialize | src/Blazor.Fluxor/Store.cs:41-46 | the store it returns has exactly `StoreInitializedAction` queued, has called no hook and is not activated |
| Fluxor.Store.FeatureNamed | src/Blazor.Fluxor/Store.cs:17-23 | a lookup finds a feature exactly when some registered feature has that name ignoring case, and the feature it finds is such a feature |
| Fluxor.Store.AddFeature | src/Blazor.Fluxor/Store.cs:64-79 | null throws `ArgumentNull`; the call throws `DuplicateName`, leaving the registry unchanged, exactly when some registered feature has the same name ignoring case; otherwise the feature is registered and a lookup by its name returns it |
| Fluxor.Store.Dispatch | src/Blazor.Fluxor/Store.cs:82-119 | null throws and changes nothing; inside a change scope nothing is queued and no hook is called; before activation the action is only queued; after activation the queue ends empty and the log grows by exactly the processing of this action |
| Fluxor.Store.AddEffect | src/Blazor.Fluxor/Store.cs:122-137 | null throws and changes nothing; otherwise the effect is appended to the effect list |
| Fluxor.Store.AddMiddleware | src/Blazor.Fluxor/Store.cs:140-160 | appends to the forward list and prepends to the reversed list, so the reversed list remains the reverse of the forward one; on an activated store the new middleware is initialized and then told all are initialized, and nothing else is called |
| Fluxor.Store.BeginInternalMiddlewareChange | src/Blazor.Fluxor/Store.cs:163-180 | the counter rises by one; every middleware is asked for a handle, in order; the returned guard is fresh and undisposed, and its callback holds exactly those handles |
| Fluxor.Store.EndMiddlewareChange | src/Blazor.Fluxor/Store.cs:215-229 | the counter falls by one; the given handles are disposed in order exactly when the counter reaches zero, and nothing happens otherwise |
| Fluxor.Store.DisposeMiddlewareChange | src/Blazor.Fluxor/Store.cs:174 | the first dispose of a guard runs its callback once, which closes the scope; a second dispose throws `ObjectDisposed` and leaves counter and log unchanged |
| Fluxor.Store.TriggerEffects | src/Blazor.Fluxor/Store.cs:231-238 | the effect list is walked in order: each entry is asked whether it reacts to the action, and a reacting entry gets `HandleAsync` before the next entry is asked |
| Fluxor.Store.InitializeMiddlewares | src/Blazor.Fluxor/Store.cs:240-247 | every middleware is initialized in order, and only then is each, in order, told that all are initialized |
| Fluxor.Store.ExecuteMiddlewareBeforeDispatch | src/Blazor.Fluxor/Store.cs:249-253 | every middleware's before-hook runs once, in registration order |
| Fluxor.Store.ExecuteMiddlewareAfterDispatch | src/Blazor.Fluxor/Store.cs:255-258 | every middleware's after-hook runs once, in registration (forward) order |
| Fluxor.Store.AllMiddlewaresMayDispatch | src/Blazor.Fluxor/Store.cs:291 | the answer is true exactly when no middleware vetoes; middlewares are asked in order and none after the first veto is asked |
| Fluxor.Store.NotifyFeatures | src/Blazor.Fluxor/Store.cs:296-297 | every registered feature is notified exactly once, in some order of enumeration, and nothing else is called |
| Fluxor.Store.ProcessAction | src/Blazor.Fluxor/Store.cs:290-302 | the log grows by exactly the segment `ProcessedAs` specifies for the action: the veto questions alone if vetoed, else questions, before-hooks, notifications, after-hooks, then the effect questions and calls |
| Fluxor.Store.DequeueActions | src/Blazor.Fluxor/Store.cs:280-309 | while a drain is running, a call changes nothing; otherwise the queue ends empty, `IsDispatching` is false again, and the log grows by each queued action's processing in queue order |
| Fluxor.Store.ActivateStore | src/Blazor.Fluxor/Store.cs:260-278 | a second call changes nothing; the first marks the store activated, initializes all middlewares then calls each one's after-all hook, drains everything queued in order, and completes `Initialized` |
| Fluxor.DrainStep | src/Blazor.Fluxor/Store.cs:288-302 | one more action processed after a partial drain extends the drain by that action |
| Pipeline.AsksAllAllowed | src/Blazor.Fluxor/Store.cs:291 | when nobody vetoes, every middleware is asked, in registration order |
| Pipeline.AllMayAppend | src/Blazor.Fluxor/Store.cs:291 | a list with one more middleware passes an action exactly when the shorter list passes it and the new middleware also allows it |
| Pipeline.AsksAppend | src/Blazor.Fluxor/Store.cs:291 | after a run of allowing answers, asking one more middleware appends exactly that question |
| Pipeline.AsksStopAtVeto | src/Blazor.Fluxor/Store.cs:291 | once a middleware has vetoed, the middlewares after it are never asked, and the action stays vetoed |
| Pipeline.AsksOnlyAsk | src/Blazor.Fluxor/Store.cs:291 | the veto phase asks a prefix of the middleware list, one `MayDispatchAction` about the action per list entry, in list order |
| Pipeline.HandlesAppend | src/Blazor.Fluxor/Store.cs:233-237 | one more effect entry adds its `ShouldReactToAction` question and, exactly when it reacts, its `HandleAsync` call |
| Pipeline.HandlesExactlyReacting | src/Blazor.Fluxor/Store.cs:231-237 | every entry of the effect list is asked once whether it reacts; an effect that reacts gets `HandleAsync` once per entry in the list, and one that does not react gets none |
| Pipeline.HandlesOnlyHandle | src/Blazor.Fluxor/Store.cs:233-237 | the effect phase only asks `ShouldReactToAction` and calls `HandleAsync`, only about the action and only on listed effects |
| Pipeline.PassSegmentAt | src/Blazor.Fluxor/Store.cs:291-301 | the event at each position of an unvetoed action's segment, region by region: veto question, before-hook, notification, after-hook, effect question or call |
| Pipeline.ProcessedMentionsOnly | src/Blazor.Fluxor/Store.cs:290-302 | processing an action calls hooks about that action only |
| Pipeline.VetoedActionReachesNoHook | src/Blazor.Fluxor/Store.cs:291-302 | a vetoed action reaches no before-hook, feature, after-hook or effect; only veto questions are asked |
| Pipeline.PipelineOrder | src/Blazor.Fluxor/Store.cs:291-301 | for an unvetoed action the stages never go backwards: all questions, then all before-hooks, then all notifications, then all after-hooks, then the effects |
| Pipeline.NotesCount | src/Blazor.Fluxor/Store.cs:296-297 | enumerating the registry notifies each registered feature once and any other feature never |
| Pipeline.FeatureNotifiedOnce | src/Blazor.Fluxor/Store.cs:291-297 | processing an action notifies a feature of it exactly once if the feature is registered and nobody vetoes, and never otherwise |
| Pipeline.PassedPipeline | src/Blazor.Fluxor/Store.cs:291-301 | the five phases of the loop body, appended in turn, make up the segment `ProcessedAs` specifies |
| Pipeline.DrainedSingle | src/Blazor.Fluxor/Store.cs:288 | draining a one-action queue is exactly processing that action |
| Pipeline.DrainedMentionsOnly | src/Blazor.Fluxor/Store.cs:288-303 | a drain calls hooks only about actions that were queued |
| Pipeline.DrainNotifiesPerOccurrence | src/Blazor.Fluxor/Store.cs:288-297 | a drain notifies a registered feature of an unvetoed action once per occurrence of the action in the queue, and never for a vetoed action or an unregistered feature |
| Seqs.Reverse | src/Blazor.Fluxor/Store.cs:26 | the reversed list has the same length, and its position i holds the forward list's element at the mirror position |
| Seqs.ReverseAppend | src/Blazor.Fluxor/Store.cs:146-147 | appending to the forward list corresponds to inserting at the front of the reversed one |
| FeatureNames.SameKeyIffCaseVariants | src/Blazor.Fluxor/Store.cs:23 | under the model's key, two names are the same registry key if and only if they differ at most in the case of their letters: case variants collide, and names differing in anything else stay apart |
| Disposal.AsyncDisposableCallback.constructor | src/Blazor.Fluxor/AsyncDisposableCallback.cs:20-23 | a new guard stores the callback, is not disposed and has run nothing |
| Disposal.AsyncDisposableCallback.Create | src/Blazor.Fluxor/AsyncDisposableCallback.cs:22 | construction fails with `ArgumentNull` exactly when the callback is null; otherwise it yields a fresh undisposed guard holding it |
| Disposal.AsyncDisposableCallback.DisposeAsync | src/Blazor.Fluxor/AsyncDisposableCallback.cs:28-36 | the first dispose marks the guard disposed and runs the callback once; later disposes throw `ObjectDisposed` and run nothing; a disposed guard stays disposed |
| Scenarios.NestedScopes | test/Blazor.Fluxor.UnitTests/StoreTests/BeginInternalMiddlewareChange.cs:15-34 | after two nested scopes close, the counter is zero and only the later scope's handles are disposed, each once; the first scope's handles are never disposed |
| Scenarios.DispatchInsideScope | test/Blazor.Fluxor.UnitTests/StoreTests/Dispatch.cs:24-41 | an action dispatched inside a change scope is never asked about, never queued and reaches no hook |
| Scenarios.DispatchTimes | test/Blazor.Fluxor.UnitTests/StoreTests/ThreadingTests/Dispatch.cs:19-38 | n dispatches of an unvetoed action notify a registered feature exactly n times, so no increment is lost |
| Scenarios.DispatchEach | test/Blazor.Fluxor.UnitTests/StoreTests/Dispatch.cs:95-113 | actions dispatched one after another, as an effect emits them, are processed as one drain in dispatch order, and each feature hears each unvetoed action once per occurrence |

## Left out

- The `SemaphoreSlim`, `async`/`await` and `volatile` are not modelled. Each public method is one atomic step, and an effect's `HandleAsync` that dispatches becomes a later `Dispatch` call.
- Interleavings are not modelled. In particular, `ActivateStore` reads `HasActivatedStore` before taking the lock, so two concurrent activations could both pass that check.
- The blocking `.Wait()` on `InitializeAsync` in `AddMiddleware` is a plain call in the model.
- `Store.Initialize()`, which returns a `RenderFragment` building a `<script>` element and hands `ActivateStore` to the initialization strategy, is not modelled. That is UI and JavaScript glue, so `ActivateStore` is called directly. The JavaScript initialization strategy, with its timer and deadline, is I/O.
- The reflection-built notification delegate is left out. Notifying a feature is a direct logged call.
- The bodies of middlewares, features and effects are left out. Reducers, feature state and what `HandleAsync` does all fall here. A hook is a logged event, and the only answers modelled are `MayDispatchAction` and `ShouldReactToAction`, taken as fixed per middleware or effect and action.
- Exceptions thrown by hooks are not modelled.
- `Fluxor.Store.DequeueActions`: the case where a hook throws during a drain is not modelled. In the source, the `finally` block resets `IsDispatching`, and the rest of the queue stays queued for the next `Dispatch` to drain first. The model's class invariant says an activated store has an empty queue between calls, so it rules that state out. `Dispatch`'s promise that a call on an activated store processes exactly its own action relies on that invariant.
- `Fluxor.Store.AddFeature`: the feature's `GetName` call is not recorded in the log. A feature's name is a fixed field of the model's `Feature`.
- `Scenarios.NestedScopes`: a handle is identified by the `BeginInternalMiddlewareChange` call that returned it: the middleware and the scope number. A middleware that hands the same object to two scopes is not modelled. "Never disposed" means that `Dispose` is never called through the earlier scope's handle array.
- `Fluxor.Store.NotifyFeatures`: the order in which the dictionary enumerates the features is left open. The contract promises "each registered feature once, in some order", not a specific order.
- `FeatureNames.Fold`: case-insensitive comparison is modelled as ASCII lower-casing. The culture-invariant Unicode case mapping of `StringComparer.InvariantCultureIgnoreCase` is not modelled.
- `FeatureNames.SameKeyIffCaseVariants`: the source's `StringComparer.InvariantCultureIgnoreCase` is a linguistic comparison, not only case mapping. Besides non-ASCII case, it may treat as equal names that differ by ignorable characters (a soft hyphen, say) or that are canonically equivalent (a precomposed letter against a letter followed by a combining accent). The model keeps such names apart. So the lemma, and `Fluxor.Store.AddFeature`'s promise that it throws `DuplicateName` exactly when a registered feature has the same name ignoring case, match the source only for names free of such characters.
- Null feature names and null middlewares are not modelled. `AddMiddleware` accepts a null middleware in the source, and the first hook call on it throws; the model's middlewares are identities, never null.
- `BeginMiddlewareChangeCount` is an unbounded integer. The 32-bit overflow of the source's counter is not modelled.
- The finaliser of `AsyncDisposableCallback`, which throws if the guard is collected undisposed, is garbage-collector behaviour and is not modelled.
- `GC.SuppressFinalize` in `DisposeAsync` is not modelled.
- Disposing a handle collected from a middleware is a logged event. What the handle does when disposed is the middleware's business and is not modelled.
