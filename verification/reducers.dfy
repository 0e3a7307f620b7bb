/**
 * createReducerContext: a store holding a reducer and the current state;
 * `dispatch(action)` replaces the state by `reducer(state, action)`.
 */
module Reducers {
  /** The state after dispatching `log`, in order, from `start`. */
  function Replay<S, A>(reducer: (S, A) -> S, start: S, log: seq<A>): S
  {
    if |log| == 0 then start else reducer(Replay(reducer, start, log[..|log| - 1]), log[|log| - 1])
  }

  class Store<S, A> {
    const reducer: (S, A) -> S
    var state: S
    ghost var start: S
    /** Every action dispatched so far, oldest first. */
    ghost var dispatched: seq<A>

    /** The current state is always the replay of what was dispatched. */
    ghost predicate Valid()
      reads this
    {
      state == Replay(reducer, start, dispatched)
    }

    constructor(reducer: (S, A) -> S, initial: S)
      ensures Valid()
      ensures this.reducer == reducer && state == initial && start == initial && dispatched == []
    {
      this.reducer := reducer;
      state := initial;
      start := initial;
      dispatched := [];
    }

    /** `dispatch(action)`. */
    method Dispatch(action: A)
      requires Valid()
      modifies this
      ensures Valid()
      ensures state == reducer(old(state), action)
      ensures start == old(start) && dispatched == old(dispatched) + [action]
    {
      state := reducer(state, action);
      dispatched := dispatched + [action];
      assert dispatched[..|dispatched| - 1] == old(dispatched);
    }
  }
}
