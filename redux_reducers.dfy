/**
 * The standalone store's reducer (src/redux/reducers.ts): the same counter
 * as the web side's, as the only slice of the state.
 */
module ReduxReducers {
  import opened Wrappers
  import opened ReduxHelpers
  import opened WebReducers

  datatype CounterState = CounterState(counter: JsNumber)

  /** The combined reducer over the single counter slice. */
  function Reducer(state: Option<CounterState>, action: AnyAction, counters: CounterActions): (r: CounterState)
    ensures r.counter == Counter(if state.Some? then Some(state.value.counter) else None, action, counters)
  {
    CounterState(Counter(if state.Some? then Some(state.value.counter) else None, action, counters))
  }

  /** The store's state after a run of dispatched actions, starting from `state` (None before the first dispatch). */
  function RunRedux(state: Option<CounterState>, actions: seq<AnyAction>, counters: CounterActions): CounterState
    decreases |actions|
  {
    if actions == [] then state.GetOr(CounterState(Finite(0.0)))
    else RunRedux(Some(Reducer(state, actions[0], counters)), actions[1..], counters)
  }

  /** The store's counter is exactly the counter reducer's own run over the same actions. */
  lemma {:induction false} RunReduxIsCounterRun(state: Option<CounterState>, actions: seq<AnyAction>, counters: CounterActions)
    ensures RunRedux(state, actions, counters).counter ==
      RunCounter(if state.Some? then Some(state.value.counter) else None, actions, counters)
    decreases |actions|
  {
    if actions != [] {
      RunReduxIsCounterRun(Some(Reducer(state, actions[0], counters)), actions[1..], counters);
    }
  }

  /** Dispatching incrementCounter() twice and incrementCounterBy({amount: 3}) once to a fresh store gives 5. */
  lemma CountsToFive(counters: CounterActions)
    requires counters.incrementCounter.uniqueType != counters.incrementCounterBy.uniqueType
    ensures var inc := counters.incrementCounter.Create(None, map[]);
      var by3 := counters.incrementCounterBy.Create(Some(map["amount" := Number(3.0)]), map[]);
      RunRedux(None, [inc, inc, by3], counters) == CounterState(Finite(5.0))
  {
    var inc := counters.incrementCounter.Create(None, map[]);
    var by3 := counters.incrementCounterBy.Create(Some(map["amount" := Number(3.0)]), map[]);
    RunReduxIsCounterRun(None, [inc, inc, by3], counters);
    assert [inc, inc, by3][1..] == [inc, by3];
    assert [inc, by3][1..] == [by3];
    assert Counter(None, inc, counters) == Finite(1.0);
    assert Counter(Some(Finite(1.0)), inc, counters) == Finite(2.0);
    assert Counter(Some(Finite(2.0)), by3, counters) == Finite(5.0);
    assert RunCounter(Some(Finite(2.0)), [by3], counters) == RunCounter(Some(Finite(5.0)), [], counters);
    assert RunCounter(Some(Finite(1.0)), [inc, by3], counters) == RunCounter(Some(Finite(2.0)), [by3], counters);
    assert RunCounter(None, [inc, inc, by3], counters) == RunCounter(Some(Finite(1.0)), [inc, by3], counters);
  }
}
