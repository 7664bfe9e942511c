/**
 * The dispatch pipeline of the store, as a specification over a log of hook calls.
 *
 * Middlewares, features and effects are opaque identities. What a middleware answers to
 * `MayDispatchAction` and what an effect answers to `ShouldReactToAction` are given by a
 * `Hooks` record. Every call the store makes into a middleware, a feature or an effect,
 * other than asking a feature its name, is an `Event`; the store keeps them, in call order,
 * in a ghost log. This module says which
 * segment of that log processing one action, or draining a queue, must append.
 */
module Pipeline {
  import opened Seqs

  type MiddlewareId = nat
  type EffectId = nat

  /** An action; `StoreInitializedAction` is the marker the store dispatches on creation. */
  datatype Action = StoreInitializedAction | AppAction(tag: nat)

  /** A feature is known to the store by its identity and the name it reports. */
  datatype Feature = Feature(id: nat, name: string)

  /** The disposable that middleware `middleware` returned when change scope `scope` began. */
  datatype Handle = Handle(middleware: MiddlewareId, scope: nat)

  /** The answers middlewares and effects give to the store's questions about an action. */
  datatype Hooks = Hooks(
    mayDispatch: (MiddlewareId, Action) -> bool,
    shouldReact: (EffectId, Action) -> bool)

  /** One call from the store into a middleware, a feature or an effect. */
  datatype Event =
    | AskedMayDispatch(middleware: MiddlewareId, action: Action)   // IMiddleware.MayDispatchAction
    | BeforeDispatch(middleware: MiddlewareId, action: Action)     // IMiddleware.BeforeDispatch
    | NotifiedFeature(feature: Feature, action: Action)            // IFeature.ReceiveDispatchNotificationFromStore
    | AfterDispatch(middleware: MiddlewareId, action: Action)      // IMiddleware.AfterDispatch
    | AskedShouldReact(effect: EffectId, action: Action)           // IEffect.ShouldReactToAction
    | HandledByEffect(effect: EffectId, action: Action)            // IEffect.HandleAsync
    | InitializedMiddleware(middleware: MiddlewareId)              // IMiddleware.InitializeAsync
    | AfterInitializeAll(middleware: MiddlewareId)                 // IMiddleware.AfterInitializeAllMiddlewares
    | BeganChange(handle: Handle)                                  // IMiddleware.BeginInternalMiddlewareChange
    | DisposedHandle(handle: Handle)                               // IDisposable.Dispose on a collected handle

  /** Whether an event is one of those that only an action passing the veto can cause. */
  predicate SeesAction(e: Event)
  {
    e.BeforeDispatch? || e.NotifiedFeature? || e.AfterDispatch? || e.AskedShouldReact? || e.HandledByEffect?
  }

  /** Whether an event is a hook call about one particular action. */
  predicate IsActionEvent(e: Event)
  {
    e.AskedMayDispatch? || SeesAction(e)
  }

  /** What the drain loop reads from the store while it processes an action. */
  datatype Config = Config(
    middlewares: seq<MiddlewareId>,
    features: set<Feature>,
    effects: seq<EffectId>,
    hooks: Hooks)

  /** No middleware vetoes `a`. */
  predicate AllMay(mws: seq<MiddlewareId>, a: Action, hooks: Hooks)
  {
    forall i :: 0 <= i < |mws| ==> hooks.mayDispatch(mws[i], a)
  }

  /** The veto questions asked about `a`: in registration order, stopping after the first "no". */
  function Asks(mws: seq<MiddlewareId>, a: Action, hooks: Hooks): seq<Event>
  {
    if mws == [] then []
    else [AskedMayDispatch(mws[0], a)] + (if hooks.mayDispatch(mws[0], a) then Asks(mws[1..], a, hooks) else [])
  }

  /** Every middleware asked about `a`, in registration order. */
  function AllAsked(mws: seq<MiddlewareId>, a: Action): seq<Event>
  {
    seq(|mws|, i requires 0 <= i < |mws| => AskedMayDispatch(mws[i], a))
  }

  function Befores(mws: seq<MiddlewareId>, a: Action): seq<Event>
  {
    seq(|mws|, i requires 0 <= i < |mws| => BeforeDispatch(mws[i], a))
  }

  function Afters(mws: seq<MiddlewareId>, a: Action): seq<Event>
  {
    seq(|mws|, i requires 0 <= i < |mws| => AfterDispatch(mws[i], a))
  }

  /**
   * The effect phase for `a`, entry by entry of the effect list: the entry is asked whether it
   * reacts to `a` and, if it does, its `HandleAsync` is called before the next entry is asked.
   */
  function Handles(effs: seq<EffectId>, a: Action, hooks: Hooks): seq<Event>
  {
    if effs == [] then []
    else EffectStep(effs[0], a, hooks) + Handles(effs[1..], a, hooks)
  }

  /** The calls the effect phase makes on one entry of the effect list. */
  function EffectStep(e: EffectId, a: Action, hooks: Hooks): seq<Event>
  {
    [AskedShouldReact(e, a)] + (if hooks.shouldReact(e, a) then [HandledByEffect(e, a)] else [])
  }

  function Inits(mws: seq<MiddlewareId>): seq<Event>
  {
    seq(|mws|, i requires 0 <= i < |mws| => InitializedMiddleware(mws[i]))
  }

  function AfterInits(mws: seq<MiddlewareId>): seq<Event>
  {
    seq(|mws|, i requires 0 <= i < |mws| => AfterInitializeAll(mws[i]))
  }

  /** The handles a change scope collects: one per middleware, in registration order. */
  function ScopeHandles(mws: seq<MiddlewareId>, scope: nat): seq<Handle>
  {
    seq(|mws|, i requires 0 <= i < |mws| => Handle(mws[i], scope))
  }

  function Began(hs: seq<Handle>): seq<Event>
  {
    seq(|hs|, i requires 0 <= i < |hs| => BeganChange(hs[i]))
  }

  function Disposals(hs: seq<Handle>): seq<Event>
  {
    seq(|hs|, i requires 0 <= i < |hs| => DisposedHandle(hs[i]))
  }

  /**
   * An order in which enumerating the registry may visit the features `feats`: each exactly
   * once. Which order it is is left open, the registry being a dictionary.
   */
  ghost predicate IsEnumeration(order: seq<Feature>, feats: set<Feature>)
  {
    |order| == |feats| &&
    (forall i :: 0 <= i < |order| ==> order[i] in feats) &&
    (forall f :: f in feats ==> f in order) &&
    (forall i, j :: 0 <= i < j < |order| ==> order[i] != order[j])
  }

  /** The notifications of `a`, one per feature, in the order `order` visits them. */
  function Notes(order: seq<Feature>, a: Action): seq<Event>
  {
    seq(|order|, i requires 0 <= i < |order| => NotifiedFeature(order[i], a))
  }

  /** The length of the log segment that processing `a` appends. */
  function SegLen(a: Action, cfg: Config): nat
  {
    if AllMay(cfg.middlewares, a, cfg.hooks) then
      3 * |cfg.middlewares| + |cfg.features| + |Handles(cfg.effects, a, cfg.hooks)|
    else
      |Asks(cfg.middlewares, a, cfg.hooks)|
  }

  /**
   * What processing an action nobody vetoes appends to the log when the features are visited
   * in `order`: every middleware asked, every before-hook in registration order, every feature
   * notified, every after-hook in registration order, then the reacting effects.
   */
  function PassSegment(a: Action, cfg: Config, order: seq<Feature>): seq<Event>
  {
    var mws := cfg.middlewares;
    AllAsked(mws, a) + Befores(mws, a) + Notes(order, a) + Afters(mws, a) + Handles(cfg.effects, a, cfg.hooks)
  }

  /**
   * `seg` is what processing one dequeued action `a` appends to the log: only the veto
   * questions when some middleware says no, and otherwise the pass segment for some order of
   * visiting the features.
   */
  ghost predicate ProcessedAs(seg: seq<Event>, a: Action, cfg: Config)
  {
    if AllMay(cfg.middlewares, a, cfg.hooks) then
      exists order :: IsEnumeration(order, cfg.features) && seg == PassSegment(a, cfg, order)
    else
      seg == Asks(cfg.middlewares, a, cfg.hooks)
  }

  /**
   * `seg` splits, front to back, into one chunk per item of `items`: the chunk of item `x` has
   * length `len(x)` and satisfies `ok(chunk, x)`.
   */
  ghost predicate Chunked<T>(seg: seq<Event>, items: seq<T>, len: T -> nat, ok: (seq<Event>, T) -> bool)
    decreases |items|
  {
    if items == [] then seg == []
    else
      var n := len(items[0]);
      n <= |seg| && ok(seg[..n], items[0]) && Chunked(seg[n..], items[1..], len, ok)
  }

  /** `seg` is what draining the queue `actions` appends: each action processed in turn, in queue order. */
  ghost predicate DrainedAs(seg: seq<Event>, actions: seq<Action>, cfg: Config)
  {
    Chunked(seg, actions, a => SegLen(a, cfg), (chunk, a) => ProcessedAs(chunk, a, cfg))
  }

  // ---------------------------------------------------------------------------------------
  // The veto questions

  /** When nobody vetoes, every middleware is asked, in order. */
  lemma {:induction false} AsksAllAllowed(mws: seq<MiddlewareId>, a: Action, hooks: Hooks)
    requires AllMay(mws, a, hooks)
    ensures Asks(mws, a, hooks) == AllAsked(mws, a)
  {
    if mws != [] {
      assert AllMay(mws[1..], a, hooks) by {
        forall i | 0 <= i < |mws| - 1 ensures hooks.mayDispatch(mws[1..][i], a) {
          assert mws[1..][i] == mws[i + 1];
        }
      }
      AsksAllAllowed(mws[1..], a, hooks);
      assert AllAsked(mws, a) == [AskedMayDispatch(mws[0], a)] + AllAsked(mws[1..], a);
    }
  }

  /** One more middleware passes an action exactly when it and all before it do. */
  lemma AllMayAppend(mws: seq<MiddlewareId>, m: MiddlewareId, a: Action, hooks: Hooks)
    ensures AllMay(mws + [m], a, hooks) <==> AllMay(mws, a, hooks) && hooks.mayDispatch(m, a)
  {
    assert (mws + [m])[|mws|] == m;
    assert forall i :: 0 <= i < |mws| ==> (mws + [m])[i] == mws[i];
  }

  /** Asking one more middleware after a run of "yes" answers appends one question. */
  lemma {:induction false} AsksAppend(mws: seq<MiddlewareId>, m: MiddlewareId, a: Action, hooks: Hooks)
    requires AllMay(mws, a, hooks)
    ensures Asks(mws + [m], a, hooks) == Asks(mws, a, hooks) + [AskedMayDispatch(m, a)]
  {
    if mws == [] {
      assert mws + [m] == [m];
    } else {
      assert (mws + [m])[1..] == mws[1..] + [m];
      assert AllMay(mws[1..], a, hooks) by {
        forall i | 0 <= i < |mws| - 1 ensures hooks.mayDispatch(mws[1..][i], a) {
          assert mws[1..][i] == mws[i + 1];
        }
      }
      AsksAppend(mws[1..], m, a, hooks);
      assert hooks.mayDispatch(mws[0], a);
    }
  }

  /** Once a middleware has said no, the middlewares after it are never asked. */
  lemma {:induction false} AsksStopAtVeto(mws: seq<MiddlewareId>, rest: seq<MiddlewareId>, a: Action, hooks: Hooks)
    requires !AllMay(mws, a, hooks)
    ensures Asks(mws + rest, a, hooks) == Asks(mws, a, hooks)
    ensures !AllMay(mws + rest, a, hooks)
  {
    assert (mws + rest)[0] == mws[0];
    if hooks.mayDispatch(mws[0], a) {
      assert (mws + rest)[1..] == mws[1..] + rest;
      assert !AllMay(mws[1..], a, hooks) by {
        var i :| 0 <= i < |mws| && !hooks.mayDispatch(mws[i], a);
        assert i != 0 && mws[1..][i - 1] == mws[i];
      }
      AsksStopAtVeto(mws[1..], rest, a, hooks);
    }
    var i :| 0 <= i < |mws| && !hooks.mayDispatch(mws[i], a);
    assert (mws + rest)[i] == mws[i];
  }

  /**
   * The veto questions go to a prefix of the middleware list, one per entry and in list order,
   * and are only questions about `a`.
   */
  lemma {:induction false} AsksOnlyAsk(mws: seq<MiddlewareId>, a: Action, hooks: Hooks)
    ensures |Asks(mws, a, hooks)| <= |mws|
    ensures forall i :: 0 <= i < |Asks(mws, a, hooks)| ==> Asks(mws, a, hooks)[i] == AskedMayDispatch(mws[i], a)
  {
    if mws != [] {
      AsksOnlyAsk(mws[1..], a, hooks);
      forall i | 1 <= i < |Asks(mws, a, hooks)| ensures Asks(mws, a, hooks)[i] == AskedMayDispatch(mws[i], a) {
        assert Asks(mws, a, hooks)[i] == Asks(mws[1..], a, hooks)[i - 1];
      }
    }
  }

  // ---------------------------------------------------------------------------------------
  // Effects

  /** Offering one more effect appends its question and, exactly when it reacts, its `HandleAsync` call. */
  lemma {:induction false} HandlesAppend(effs: seq<EffectId>, e: EffectId, a: Action, hooks: Hooks)
    ensures Handles(effs + [e], a, hooks) == Handles(effs, a, hooks) + EffectStep(e, a, hooks)
  {
    if effs == [] {
      assert effs + [e] == [e];
    } else {
      assert (effs + [e])[1..] == effs[1..] + [e];
      HandlesAppend(effs[1..], e, a, hooks);
    }
  }

  /**
   * Every entry of the effect list is asked once whether it reacts to `a`. `HandleAsync` is
   * called on effect `e` once per entry of `e` when `e` reacts to `a`, and never when it does not.
   */
  lemma {:induction false} HandlesExactlyReacting(effs: seq<EffectId>, e: EffectId, a: Action, hooks: Hooks)
    ensures Count(Handles(effs, a, hooks), AskedShouldReact(e, a)) == Count(effs, e)
    ensures Count(Handles(effs, a, hooks), HandledByEffect(e, a)) ==
            (if hooks.shouldReact(e, a) then Count(effs, e) else 0)
  {
    if effs != [] {
      var head := EffectStep(effs[0], a, hooks);
      var tail := if hooks.shouldReact(effs[0], a) then [HandledByEffect(effs[0], a)] else [];
      CountAppend(head, Handles(effs[1..], a, hooks), AskedShouldReact(e, a));
      CountAppend(head, Handles(effs[1..], a, hooks), HandledByEffect(e, a));
      CountAppend([AskedShouldReact(effs[0], a)], tail, AskedShouldReact(e, a));
      CountAppend([AskedShouldReact(effs[0], a)], tail, HandledByEffect(e, a));
      HandlesExactlyReacting(effs[1..], e, a, hooks);
    }
  }

  /** The effect phase only asks and calls listed effects, and only about `a`. */
  lemma {:induction false} HandlesOnlyHandle(effs: seq<EffectId>, a: Action, hooks: Hooks)
    ensures forall i :: 0 <= i < |Handles(effs, a, hooks)| ==>
              (Handles(effs, a, hooks)[i].AskedShouldReact? || Handles(effs, a, hooks)[i].HandledByEffect?) &&
              Handles(effs, a, hooks)[i].action == a && Handles(effs, a, hooks)[i].effect in effs
  {
    if effs != [] {
      HandlesOnlyHandle(effs[1..], a, hooks);
      var head := EffectStep(effs[0], a, hooks);
      assert Handles(effs, a, hooks) == head + Handles(effs[1..], a, hooks);
      forall i | 0 <= i < |Handles(effs, a, hooks)|
        ensures Handles(effs, a, hooks)[i].effect in effs
      {
        if i >= |head| {
          assert Handles(effs, a, hooks)[i] == Handles(effs[1..], a, hooks)[i - |head|];
          assert forall k :: 0 <= k < |effs| - 1 ==> effs[1..][k] == effs[k + 1];
        }
      }
    }
  }

  // ---------------------------------------------------------------------------------------
  // One action

  /** The segment processing an action appends has the length `SegLen` gives. */
  lemma ProcessedAsLength(seg: seq<Event>, a: Action, cfg: Config)
    requires ProcessedAs(seg, a, cfg)
    ensures |seg| == SegLen(a, cfg)
  {
  }

  /** The event at position `i` of a pass segment, region by region. */
  lemma PassSegmentAt(a: Action, cfg: Config, order: seq<Feature>, i: nat)
    requires AllMay(cfg.middlewares, a, cfg.hooks) && |order| == |cfg.features|
    requires i < |PassSegment(a, cfg, order)|
    ensures var seg := PassSegment(a, cfg, order);
            var n := |cfg.middlewares|;
            var q := 2 * n + |cfg.features|;
            (i < n ==> seg[i] == AskedMayDispatch(cfg.middlewares[i], a)) &&
            (n <= i < 2 * n ==> seg[i] == BeforeDispatch(cfg.middlewares[i - n], a)) &&
            (2 * n <= i < q ==> seg[i] == NotifiedFeature(order[i - 2 * n], a)) &&
            (q <= i < q + n ==> seg[i] == AfterDispatch(cfg.middlewares[i - q], a)) &&
            (q + n <= i ==> (seg[i].AskedShouldReact? || seg[i].HandledByEffect?) && seg[i].action == a)
  {
    var mws := cfg.middlewares;
    var seg := PassSegment(a, cfg, order);
    var n := |mws|;
    var q := 2 * n + |cfg.features|;
    IndexOfFive(AllAsked(mws, a), Befores(mws, a), Notes(order, a), Afters(mws, a),
                Handles(cfg.effects, a, cfg.hooks), i);
    if i < n {
      assert seg[i] == AskedMayDispatch(mws[i], a);
    } else if i < 2 * n {
      assert seg[i] == BeforeDispatch(mws[i - n], a);
    } else if i < q {
      assert seg[i] == NotifiedFeature(order[i - 2 * n], a);
    } else if i < q + n {
      assert seg[i] == AfterDispatch(mws[i - q], a);
    } else {
      HandlesOnlyHandle(cfg.effects, a, cfg.hooks);
    }
  }

  /** Which of five concatenated pieces position `i` falls in, and where in that piece. */
  lemma IndexOfFive<T>(p1: seq<T>, p2: seq<T>, p3: seq<T>, p4: seq<T>, p5: seq<T>, i: nat)
    requires i < |p1 + p2 + p3 + p4 + p5|
    ensures var s := p1 + p2 + p3 + p4 + p5;
            var o3 := |p1| + |p2|;
            var o4 := o3 + |p3|;
            var o5 := o4 + |p4|;
            (i < |p1| ==> s[i] == p1[i]) &&
            (|p1| <= i < o3 ==> s[i] == p2[i - |p1|]) &&
            (o3 <= i < o4 ==> s[i] == p3[i - o3]) &&
            (o4 <= i < o5 ==> s[i] == p4[i - o4]) &&
            (o5 <= i ==> s[i] == p5[i - o5])
  {
  }

  /** Every event of an action's segment is a hook call about that action. */
  lemma ProcessedMentionsOnly(seg: seq<Event>, a: Action, cfg: Config)
    requires ProcessedAs(seg, a, cfg)
    ensures forall i :: 0 <= i < |seg| ==> IsActionEvent(seg[i]) && seg[i].action == a
  {
    if AllMay(cfg.middlewares, a, cfg.hooks) {
      var order :| IsEnumeration(order, cfg.features) && seg == PassSegment(a, cfg, order);
      forall i | 0 <= i < |seg| ensures IsActionEvent(seg[i]) && seg[i].action == a {
        PassSegmentAt(a, cfg, order, i);
      }
    } else {
      AsksOnlyAsk(cfg.middlewares, a, cfg.hooks);
    }
  }

  /**
   * A vetoed action reaches no before-hook, no feature, no after-hook and no effect: its
   * segment holds only the veto questions.
   */
  lemma VetoedActionReachesNoHook(seg: seq<Event>, a: Action, cfg: Config)
    requires ProcessedAs(seg, a, cfg)
    requires !AllMay(cfg.middlewares, a, cfg.hooks)
    ensures forall i :: 0 <= i < |seg| ==> seg[i].AskedMayDispatch? && !SeesAction(seg[i])
  {
    AsksOnlyAsk(cfg.middlewares, a, cfg.hooks);
  }

  /** The phase of the pipeline an event belongs to. */
  function Stage(e: Event): nat
  {
    match e
    case AskedMayDispatch(_, _) => 0
    case BeforeDispatch(_, _) => 1
    case NotifiedFeature(_, _) => 2
    case AfterDispatch(_, _) => 3
    case _ => 4
  }

  /** The phase expected at position `i` of a non-vetoed action's segment. */
  function StageAt(i: nat, n: nat, features: nat): nat
  {
    if i < n then 0
    else if i < 2 * n then 1
    else if i < 2 * n + features then 2
    else if i < 3 * n + features then 3
    else 4
  }

  /**
   * For an action that passes the veto, the phases never go backwards: veto questions, then
   * before-hooks, then feature notifications, then after-hooks, then effects.
   */
  lemma PipelineOrder(seg: seq<Event>, a: Action, cfg: Config)
    requires ProcessedAs(seg, a, cfg)
    requires AllMay(cfg.middlewares, a, cfg.hooks)
    ensures forall i, j :: 0 <= i < j < |seg| ==> Stage(seg[i]) <= Stage(seg[j])
  {
    var order :| IsEnumeration(order, cfg.features) && seg == PassSegment(a, cfg, order);
    forall i | 0 <= i < |seg| ensures Stage(seg[i]) == StageAt(i, |cfg.middlewares|, |cfg.features|) {
      PassSegmentAt(a, cfg, order, i);
    }
  }

  /** The notifications visit each feature of an enumeration once. */
  lemma NotesCount(order: seq<Feature>, feats: set<Feature>, a: Action, f: Feature)
    requires IsEnumeration(order, feats)
    ensures Count(Notes(order, a), NotifiedFeature(f, a)) == if f in feats then 1 else 0
  {
    var notes := Notes(order, a);
    var x := NotifiedFeature(f, a);
    if f in feats {
      var k :| 0 <= k < |order| && order[k] == f;
      assert notes[k] == x;
      CountDistinct(notes, x);
    } else {
      CountAbsent(notes, x);
    }
  }

  /** A feature is notified of an action once if it is registered and nobody vetoes, else never. */
  lemma FeatureNotifiedOnce(seg: seq<Event>, a: Action, cfg: Config, f: Feature)
    requires ProcessedAs(seg, a, cfg)
    ensures Count(seg, NotifiedFeature(f, a)) ==
            (if AllMay(cfg.middlewares, a, cfg.hooks) && f in cfg.features then 1 else 0)
  {
    var x := NotifiedFeature(f, a);
    var mws := cfg.middlewares;
    AsksOnlyAsk(mws, a, cfg.hooks);
    if AllMay(mws, a, cfg.hooks) {
      var order :| IsEnumeration(order, cfg.features) && seg == PassSegment(a, cfg, order);
      var asks, befores, notes, afters, handles :=
        AllAsked(mws, a), Befores(mws, a), Notes(order, a), Afters(mws, a), Handles(cfg.effects, a, cfg.hooks);
      HandlesOnlyHandle(cfg.effects, a, cfg.hooks);
      CountAppend(asks + befores + notes + afters, handles, x);
      CountAppend(asks + befores + notes, afters, x);
      CountAppend(asks + befores, notes, x);
      CountAppend(asks, befores, x);
      CountAbsent(asks, x);
      CountAbsent(befores, x);
      CountAbsent(afters, x);
      CountAbsent(handles, x);
      NotesCount(order, cfg.features, a, f);
    } else {
      CountAbsent(seg, x);
    }
  }

  /**
   * The drain loop's body for an action nobody vetoes, log by log: the veto questions, the
   * before-hooks, the notifications in the order `order` visits the features, the after-hooks
   * and the effects, appended in that order from `l0` to `l5`, make up the action's segment.
   */
  lemma PassedPipeline(l0: seq<Event>, l1: seq<Event>, l2: seq<Event>, l3: seq<Event>, l4: seq<Event>,
                       l5: seq<Event>, order: seq<Feature>, a: Action, cfg: Config)
    requires AllMay(cfg.middlewares, a, cfg.hooks)
    requires l1 == l0 + Asks(cfg.middlewares, a, cfg.hooks)
    requires l2 == l1 + Befores(cfg.middlewares, a)
    requires l3 == l2 + Notes(order, a) && IsEnumeration(order, cfg.features)
    requires l4 == l3 + Afters(cfg.middlewares, a)
    requires l5 == l4 + Handles(cfg.effects, a, cfg.hooks)
    ensures |l0| <= |l5| && l5[..|l0|] == l0
    ensures ProcessedAs(l5[|l0|..], a, cfg)
  {
    var mws := cfg.middlewares;
    AsksAllAllowed(mws, a, cfg.hooks);
    AppendedInTurn(l0, l1, l2, l3, l4, l5, AllAsked(mws, a), Befores(mws, a), Notes(order, a),
                   Afters(mws, a), Handles(cfg.effects, a, cfg.hooks));
  }

  /** Five pieces appended in turn to `l0` are their concatenation appended at once. */
  lemma AppendedInTurn<T>(l0: seq<T>, l1: seq<T>, l2: seq<T>, l3: seq<T>, l4: seq<T>, l5: seq<T>,
                          p1: seq<T>, p2: seq<T>, p3: seq<T>, p4: seq<T>, p5: seq<T>)
    requires l1 == l0 + p1 && l2 == l1 + p2 && l3 == l2 + p3 && l4 == l3 + p4 && l5 == l4 + p5
    ensures |l0| <= |l5| && l5[..|l0|] == l0 && l5[|l0|..] == p1 + p2 + p3 + p4 + p5
  {
  }

  // ---------------------------------------------------------------------------------------
  // Draining a queue

  /** Adding one more chunk at the back. */
  lemma {:induction false} ChunkedAppend<T>(s: seq<Event>, items: seq<T>, t: seq<Event>, x: T,
                                            len: T -> nat, ok: (seq<Event>, T) -> bool)
    requires Chunked(s, items, len, ok)
    requires ok(t, x) && len(x) == |t|
    ensures Chunked(s + t, items + [x], len, ok)
    decreases |items|
  {
    if items == [] {
      assert s + t == t && items + [x] == [x];
      assert t[..|t|] == t && t[|t|..] == [] && [x][1..] == [];
    } else {
      var n := len(items[0]);
      ChunkedAppend(s[n..], items[1..], t, x, len, ok);
      assert (items + [x])[0] == items[0];
      assert (items + [x])[1..] == items[1..] + [x];
      assert (s + t)[..n] == s[..n];
      assert (s + t)[n..] == s[n..] + t;
    }
  }

  /**
   * A chunked log extended by one more chunk, for the item after the first `done` items of
   * `queue`, is chunked by the first `done + 1` items. `start`, `before` and `after` are the
   * whole log at three moments; each extends the one before.
   */
  lemma ChunkedExtend<T>(start: seq<Event>, before: seq<Event>, after: seq<Event>, queue: seq<T>, done: nat,
                         len: T -> nat, ok: (seq<Event>, T) -> bool)
    requires done < |queue|
    requires |start| <= |before| && before[..|start|] == start
    requires Chunked(before[|start|..], queue[..done], len, ok)
    requires |before| <= |after| && after[..|before|] == before
    requires ok(after[|before|..], queue[done]) && len(queue[done]) == |after| - |before|
    ensures |start| <= |after| && after[..|start|] == start
    ensures Chunked(after[|start|..], queue[..done + 1], len, ok)
  {
    ChunkedAppend(before[|start|..], queue[..done], after[|before|..], queue[done], len, ok);
    assert after[|start|..] == before[|start|..] + after[|before|..];
    assert queue[..done + 1] == queue[..done] + [queue[done]];
  }

  /** A queue of one item is one chunk. */
  lemma ChunkedSingle<T>(seg: seq<Event>, x: T, len: T -> nat, ok: (seq<Event>, T) -> bool)
    requires Chunked(seg, [x], len, ok)
    ensures len(x) == |seg| && ok(seg, x)
  {
    var n := len(x);
    assert [x][1..] == [];
    assert Chunked(seg[n..], [], len, ok);
    assert seg[..n] == seg;
  }

  /** Draining a one-action queue is processing that action. */
  lemma DrainedSingle(seg: seq<Event>, a: Action, cfg: Config)
    requires DrainedAs(seg, [a], cfg)
    ensures ProcessedAs(seg, a, cfg)
  {
    ChunkedSingle(seg, a, a => SegLen(a, cfg), (chunk, a) => ProcessedAs(chunk, a, cfg));
  }

  /** Every event of a drain is a hook call about one of the drained actions. */
  lemma {:induction false} DrainedMentionsOnly(seg: seq<Event>, actions: seq<Action>, cfg: Config)
    requires DrainedAs(seg, actions, cfg)
    ensures forall i :: 0 <= i < |seg| ==> IsActionEvent(seg[i]) && seg[i].action in actions
    decreases |actions|
  {
    if actions != [] {
      var n := SegLen(actions[0], cfg);
      ProcessedMentionsOnly(seg[..n], actions[0], cfg);
      DrainedMentionsOnly(seg[n..], actions[1..], cfg);
      forall i | 0 <= i < |seg| ensures IsActionEvent(seg[i]) && seg[i].action in actions {
        if i < n {
          assert seg[i] == seg[..n][i];
        } else {
          assert seg[i] == seg[n..][i - n];
          assert forall k :: 0 <= k < |actions| - 1 ==> actions[1..][k] == actions[k + 1];
        }
      }
    }
  }

  /**
   * Draining notifies a registered feature of action `x` once for every occurrence of `x` in
   * the queue, provided no middleware vetoes `x`, and never otherwise. With `x` an increment
   * action, a counter feature ends up incremented exactly as often as `x` was queued.
   */
  lemma {:induction false} DrainNotifiesPerOccurrence(seg: seq<Event>, actions: seq<Action>, cfg: Config, f: Feature, x: Action)
    requires DrainedAs(seg, actions, cfg)
    ensures Count(seg, NotifiedFeature(f, x)) ==
            (if AllMay(cfg.middlewares, x, cfg.hooks) && f in cfg.features then Count(actions, x) else 0)
    decreases |actions|
  {
    if actions != [] {
      var n := SegLen(actions[0], cfg);
      var head := seg[..n];
      assert seg == head + seg[n..];
      CountAppend(head, seg[n..], NotifiedFeature(f, x));
      DrainNotifiesPerOccurrence(seg[n..], actions[1..], cfg, f, x);
      if actions[0] == x {
        FeatureNotifiedOnce(head, x, cfg, f);
      } else {
        ProcessedMentionsOnly(head, actions[0], cfg);
        assert NotifiedFeature(f, x) !in head by {
          forall i | 0 <= i < |head| ensures head[i] != NotifiedFeature(f, x) {
            assert head[i].action == actions[0];
          }
        }
        CountAbsent(head, NotifiedFeature(f, x));
      }
    }
  }
}
