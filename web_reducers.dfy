/**
 * The web side's reducers (src/web/reducers.ts): a counter and the mirrored
 * scene graph, combined into one state. Redux passes each slice `undefined`
 * before it has a value, which picks the slice's default. The action
 * creators the reducers consult are parameters.
 */
module WebReducers {
  import opened Wrappers
  import opened ReduxHelpers

  /** A JavaScript number: a finite value or NaN (infinities and rounding are not modelled). */
  datatype JsNumber = Finite(r: real) | NaN

  /** JavaScript `+` on numbers: NaN absorbs. */
  function Plus(x: JsNumber, y: JsNumber): (r: JsNumber)
    ensures r.Finite? <==> x.Finite? && y.Finite?
    ensures r.Finite? ==> r.r == x.r + y.r
  {
    if x.Finite? && y.Finite? then Finite(x.r + y.r) else NaN
  }

  datatype NodeType = CANVAS | FRAME

  /** A node of the mirrored scene graph. */
  datatype SceneGraphNode = SceneGraphNode(
    guid: string, nodeType: NodeType, resizeToFit: Option<bool>, parent: Option<string>,
    position: real, children: seq<string>)

  /** The values payload objects hold here: numbers and scene-graph nodes. */
  datatype Value = Number(n: real) | NodeValue(node: SceneGraphNode)

  /** A plain JavaScript object. */
  type JsObject = map<string, Value>

  type AnyAction = Action<JsObject>

  /** action.payload.amount as a number; reading a missing field gives undefined, and `n + undefined` is NaN. */
  function Amount(payload: JsObject): (r: JsNumber)
    ensures r.Finite? <==> "amount" in payload && payload["amount"].Number?
    ensures r.Finite? ==> r.r == payload["amount"].n
  {
    if "amount" in payload && payload["amount"].Number? then Finite(payload["amount"].n) else NaN
  }

  datatype CounterActions = CounterActions(incrementCounter: ActionCreator, incrementCounterBy: ActionCreator)

  /** The counter reducer: +1, + payload.amount, or unchanged; the state defaults to 0. */
  function Counter(state: Option<JsNumber>, action: AnyAction, creators: CounterActions): JsNumber {
    var s := state.GetOr(Finite(0.0));
    if creators.incrementCounter.Matches(action) then Plus(s, Finite(1.0))
    else if creators.incrementCounterBy.Matches(action) then Plus(s, Amount(action.payload))
    else s
  }

  /** The counter after a run of dispatched actions, starting from `state`. */
  function RunCounter(state: Option<JsNumber>, actions: seq<AnyAction>, creators: CounterActions): JsNumber
    decreases |actions|
  {
    if actions == [] then state.GetOr(Finite(0.0))
    else RunCounter(Some(Counter(state, actions[0], creators)), actions[1..], creators)
  }

  /** What one action adds to the counter when its amount, if any, is a number. */
  function Contribution(action: AnyAction, creators: CounterActions): real {
    if creators.incrementCounter.Matches(action) then 1.0
    else if creators.incrementCounterBy.Matches(action) && "amount" in action.payload && action.payload["amount"].Number? then
      action.payload["amount"].n
    else 0.0
  }

  function Total(actions: seq<AnyAction>, creators: CounterActions): real
    decreases |actions|
  {
    if actions == [] then 0.0 else Contribution(actions[0], creators) + Total(actions[1..], creators)
  }

  /** An incrementCounterBy action (not shadowed by incrementCounter) that carries no numeric amount. */
  predicate SpoilsCount(action: AnyAction, creators: CounterActions) {
    !creators.incrementCounter.Matches(action) && creators.incrementCounterBy.Matches(action) &&
    Amount(action.payload).NaN?
  }

  /**
   * The counter counts: from a finite start it ends at the start plus one per
   * incrementCounter and plus the amount of each incrementCounterBy, as long
   * as every such amount is a number.
   */
  lemma {:induction false} CounterSumsContributions(start: real, actions: seq<AnyAction>, creators: CounterActions)
    requires forall i :: 0 <= i < |actions| ==> !SpoilsCount(actions[i], creators)
    ensures RunCounter(Some(Finite(start)), actions, creators) == Finite(start + Total(actions, creators))
    decreases |actions|
  {
    if actions != [] {
      var next := Counter(Some(Finite(start)), actions[0], creators);
      assert !SpoilsCount(actions[0], creators);
      assert next == Finite(start + Contribution(actions[0], creators));
      CounterSumsContributions(start + Contribution(actions[0], creators), actions[1..], creators);
    }
  }

  /** Once the counter is NaN, no action brings it back. */
  lemma {:induction false} CounterNaNSticks(actions: seq<AnyAction>, creators: CounterActions)
    ensures RunCounter(Some(NaN), actions, creators) == NaN
    decreases |actions|
  {
    if actions != [] {
      CounterNaNSticks(actions[1..], creators);
    }
  }

  /** An action that spoils the count turns it to NaN for good. */
  lemma SpoiledCountStaysNaN(state: Option<JsNumber>, action: AnyAction, rest: seq<AnyAction>, creators: CounterActions)
    requires SpoilsCount(action, creators)
    ensures RunCounter(state, [action] + rest, creators) == NaN
  {
    assert ([action] + rest)[1..] == rest;
    CounterNaNSticks(rest, creators);
  }

  datatype SceneGraphState = SceneGraphState(mutableSceneGraph: JsObject)

  datatype SceneGraphActions = SceneGraphActions(notifyUpdatedSceneGraph: ActionCreator, injectSceneGraph: ActionCreator)

  /** The scene-graph reducer: a notification keeps the graph, an injection replaces it with the payload; the default is empty. */
  function SceneGraphReducer(state: Option<SceneGraphState>, action: AnyAction, creators: SceneGraphActions): SceneGraphState {
    var s := state.GetOr(SceneGraphState(map[]));
    if creators.notifyUpdatedSceneGraph.Matches(action) then SceneGraphState(s.mutableSceneGraph)
    else if creators.injectSceneGraph.Matches(action) then SceneGraphState(action.payload)
    else s
  }

  function RunSceneGraph(state: Option<SceneGraphState>, actions: seq<AnyAction>, creators: SceneGraphActions): SceneGraphState
    decreases |actions|
  {
    if actions == [] then state.GetOr(SceneGraphState(map[]))
    else RunSceneGraph(Some(SceneGraphReducer(state, actions[0], creators)), actions[1..], creators)
  }

  /** The mirrored graph is the payload of the last injection, or the initial graph when nothing was injected. */
  function LastInjected(initial: JsObject, actions: seq<AnyAction>, creators: SceneGraphActions): JsObject
    decreases |actions|
  {
    if actions == [] then initial
    else
      var a := actions[|actions| - 1];
      if !creators.notifyUpdatedSceneGraph.Matches(a) && creators.injectSceneGraph.Matches(a) then a.payload
      else LastInjected(initial, actions[..|actions| - 1], creators)
  }

  /** Running the reducer leaves exactly the last injected graph. */
  lemma {:induction false} SceneGraphHoldsLastInjection(state: Option<SceneGraphState>, actions: seq<AnyAction>, creators: SceneGraphActions)
    ensures RunSceneGraph(state, actions, creators).mutableSceneGraph ==
      LastInjected(state.GetOr(SceneGraphState(map[])).mutableSceneGraph, actions, creators)
    decreases |actions|
  {
    if actions != [] {
      var next := SceneGraphReducer(state, actions[0], creators);
      SceneGraphHoldsLastInjection(Some(next), actions[1..], creators);
      LastInjectedFront(state.GetOr(SceneGraphState(map[])).mutableSceneGraph, actions, creators);
    }
  }

  /** LastInjected read from the front: the first action sets the starting graph for the rest. */
  lemma {:induction false} LastInjectedFront(initial: JsObject, actions: seq<AnyAction>, creators: SceneGraphActions)
    requires actions != []
    ensures LastInjected(initial, actions, creators) ==
      LastInjected(SceneGraphReducer(Some(SceneGraphState(initial)), actions[0], creators).mutableSceneGraph, actions[1..], creators)
    decreases |actions|
  {
    if |actions| > 1 {
      var front := actions[..|actions| - 1];
      assert front[0] == actions[0] && front[1..] == actions[1..][..|actions[1..]| - 1];
      LastInjectedFront(initial, front, creators);
    }
  }

  datatype State = State(counter: JsNumber, sceneGraph: SceneGraphState)

  /** The combined reducer: each slice is reduced on its own part of the state. */
  function Reducer(state: Option<State>, action: AnyAction, counters: CounterActions, scenes: SceneGraphActions): (r: State)
    ensures r.counter == Counter(if state.Some? then Some(state.value.counter) else None, action, counters)
    ensures r.sceneGraph == SceneGraphReducer(if state.Some? then Some(state.value.sceneGraph) else None, action, scenes)
  {
    match state
    case None => State(Counter(None, action, counters), SceneGraphReducer(None, action, scenes))
    case Some(s) => State(Counter(Some(s.counter), action, counters), SceneGraphReducer(Some(s.sceneGraph), action, scenes))
  }

  /** The store's state after a run of dispatched actions, starting from `state` (None before the first dispatch). */
  function RunWeb(state: Option<State>, actions: seq<AnyAction>, counters: CounterActions, scenes: SceneGraphActions): State
    decreases |actions|
  {
    if actions == [] then state.GetOr(State(Finite(0.0), SceneGraphState(map[])))
    else RunWeb(Some(Reducer(state, actions[0], counters, scenes)), actions[1..], counters, scenes)
  }

  /**
   * combineReducers keeps the slices apart: a run of the combined reducer is
   * the counter's own run paired with the scene graph's own run, each seeing
   * only its slice of the state.
   */
  lemma {:induction false} RunWebKeepsSlicesApart(state: Option<State>, actions: seq<AnyAction>, counters: CounterActions, scenes: SceneGraphActions)
    ensures RunWeb(state, actions, counters, scenes) ==
      State(RunCounter(if state.Some? then Some(state.value.counter) else None, actions, counters),
            RunSceneGraph(if state.Some? then Some(state.value.sceneGraph) else None, actions, scenes))
    decreases |actions|
  {
    if actions != [] {
      RunWebKeepsSlicesApart(Some(Reducer(state, actions[0], counters, scenes)), actions[1..], counters, scenes);
    }
  }

  /**
   * The web store from its first dispatch: the counter counts (while every
   * amount is a number) and the mirrored graph is the last injected one.
   */
  lemma WebStoreAfter(actions: seq<AnyAction>, counters: CounterActions, scenes: SceneGraphActions)
    requires forall i :: 0 <= i < |actions| ==> !SpoilsCount(actions[i], counters)
    ensures RunWeb(None, actions, counters, scenes).counter == Finite(Total(actions, counters))
    ensures RunWeb(None, actions, counters, scenes).sceneGraph.mutableSceneGraph == LastInjected(map[], actions, scenes)
  {
    RunWebKeepsSlicesApart(None, actions, counters, scenes);
    assert RunCounter(None, actions, counters) == RunCounter(Some(Finite(0.0)), actions, counters) by {
      if actions != [] {
        assert Counter(None, actions[0], counters) == Counter(Some(Finite(0.0)), actions[0], counters);
      }
    }
    CounterSumsContributions(0.0, actions, counters);
    SceneGraphHoldsLastInjection(None, actions, scenes);
  }

  /** The state redux builds from an action no reducer handles: counter 0 and an empty graph. */
  lemma InitialState(action: AnyAction, counters: CounterActions, scenes: SceneGraphActions)
    requires !counters.incrementCounter.Matches(action) && !counters.incrementCounterBy.Matches(action)
    requires !scenes.notifyUpdatedSceneGraph.Matches(action) && !scenes.injectSceneGraph.Matches(action)
    ensures Reducer(None, action, counters, scenes) == State(Finite(0.0), SceneGraphState(map[]))
  {
  }
}
