/**
 * The reducer shared by the three loan calculators
 * (loan-declining.state.tsx, loan-annuity.state.tsx and loan-fee.state.tsx
 * are the same `switch` over their own result type `R`).
 */
module LoanCalculatorState {
  import opened Wrappers
  import opened Forms
  import opened Reducers

  datatype State<R> = State(formState: FormState, result: Option<R>, isCalculating: bool, calculationMode: CalculationMode)

  datatype Action<R> =
    | SetFormValue(fieldId: string, value: string)
    | SetCalculationMode(mode: CalculationMode)
    | SetFormErrors(errors: map<string, string>)
    | SetResult(payload: Option<R>)
    | SetCalculating(calculating: bool)
    /** Any other action type: the `default` branch. */
    | Unknown

  /** `initialState`: by term, no values, no errors, no result, not calculating. */
  function Initial<R>(): State<R>
  {
    State(FormState(map[], map[]), None, false, ByTerm)
  }

  /** The reducer: each action changes its own part of the state and nothing else. */
  function Reduce<R>(state: State<R>, action: Action<R>): (next: State<R>)
    ensures action.SetFormValue? ==>
      && next.formState.formValues == state.formState.formValues[action.fieldId := action.value]
      && next.formState.formErrors == state.formState.formErrors[action.fieldId := ""]
    ensures action.SetFormErrors? ==>
      next.formState == FormState(state.formState.formValues, action.errors)
    ensures action.SetCalculationMode? ==> next.calculationMode == action.mode
    ensures action.SetResult? ==> next.result == action.payload
    ensures action.SetCalculating? ==> next.isCalculating == action.calculating
    ensures !action.SetFormValue? && !action.SetFormErrors? ==> next.formState == state.formState
    ensures !action.SetCalculationMode? ==> next.calculationMode == state.calculationMode
    ensures !action.SetResult? ==> next.result == state.result
    ensures !action.SetCalculating? ==> next.isCalculating == state.isCalculating
  {
    match action
    case SetFormValue(fieldId, value) =>
      state.(formState := FormState(state.formState.formValues[fieldId := value],
                                    state.formState.formErrors[fieldId := ""]))
    case SetCalculationMode(mode) => state.(calculationMode := mode)
    case SetFormErrors(errors) => state.(formState := state.formState.(formErrors := errors))
    case SetResult(payload) => state.(result := payload)
    case SetCalculating(calculating) => state.(isCalculating := calculating)
    case Unknown => state
  }

  /** A loan calculator's store. */
  type LoanStore<R> = Store<State<R>, Action<R>>

  /** The flag carried by the last SetCalculating in `log`, if any. */
  function LastCalculating<R>(log: seq<Action<R>>): Option<bool>
  {
    if |log| == 0 then None
    else if log[|log| - 1].SetCalculating? then Some(log[|log| - 1].calculating)
    else LastCalculating(log[..|log| - 1])
  }

  /** Only SetCalculating moves the flag: after a log it is the last one dispatched. */
  lemma {:induction false} ReplayCalculating<R>(start: State<R>, log: seq<Action<R>>)
    ensures Replay(Reduce, start, log).isCalculating ==
      match LastCalculating(log)
      case Some(flag) => flag
      case None => start.isCalculating
    decreases |log|
  {
    if |log| > 0 {
      ReplayCalculating(start, log[..|log| - 1]);
    }
  }

  /** Only SetResult replaces the result: a log without one keeps it. */
  lemma {:induction false} ReplayKeepsResult<R>(start: State<R>, log: seq<Action<R>>)
    requires forall i :: 0 <= i < |log| ==> !log[i].SetResult?
    ensures Replay(Reduce, start, log).result == start.result
    decreases |log|
  {
    if |log| > 0 {
      ReplayKeepsResult(start, log[..|log| - 1]);
    }
  }

  /** A log of SetFormValue, SetFormErrors and SetCalculating keeps the mode. */
  lemma {:induction false} ReplayKeepsMode<R>(start: State<R>, log: seq<Action<R>>)
    requires forall i :: 0 <= i < |log| ==> !log[i].SetCalculationMode?
    ensures Replay(Reduce, start, log).calculationMode == start.calculationMode
    decreases |log|
  {
    if |log| > 0 {
      ReplayKeepsMode(start, log[..|log| - 1]);
    }
  }
}
