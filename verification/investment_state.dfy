/**
 * investment-calculator.state.tsx: the investment calculator's state, its
 * reducer, the contribution-period table and the shareable-state test.
 */
module InvestmentState {
  import opened Wrappers
  import opened Forms
  import opened Reducers
  import opened InvestmentProjection

  /** The ContributionPeriod enum's string values. */
  const Weekly: string := "weekly"
  const Monthly: string := "monthly"
  const Quarterly: string := "quarterly"
  const SemiAnnually: string := "semi-annually"
  const Annually: string := "annually"

  /** The form field holding the contribution period. */
  const PeriodField: string := "contributionPeriod"

  datatype PeriodDetails = PeriodDetails(displayLabel: string, periodsPerYear: real)

  /** getContributionPeriodDetails: label and periods per year; monthly for anything unknown. */
  function GetContributionPeriodDetails(period: string): (details: PeriodDetails)
    ensures details.periodsPerYear > 0.0
    ensures period == Weekly ==> details == PeriodDetails("Weekly", 52.0)
    ensures period == Quarterly ==> details == PeriodDetails("Quarterly", 4.0)
    ensures period == SemiAnnually ==> details == PeriodDetails("Semi-Annually", 2.0)
    ensures period == Annually ==> details == PeriodDetails("Annually", 1.0)
    ensures period !in {Weekly, Quarterly, SemiAnnually, Annually} ==> details == PeriodDetails("Monthly", 12.0)
  {
    if period == Weekly then PeriodDetails("Weekly", 52.0)
    else if period == Monthly then PeriodDetails("Monthly", 12.0)
    else if period == Quarterly then PeriodDetails("Quarterly", 4.0)
    else if period == SemiAnnually then PeriodDetails("Semi-Annually", 2.0)
    else if period == Annually then PeriodDetails("Annually", 1.0)
    else PeriodDetails("Monthly", 12.0)
  }

  /** The details for the period stored in the form; an absent period reads as unknown. */
  function FormPeriodDetails(values: map<string, string>): PeriodDetails
  {
    GetContributionPeriodDetails(if PeriodField in values then values[PeriodField] else "")
  }

  datatype State = State(formState: FormState, result: Option<InvestmentResult>, isCalculating: bool)

  datatype Action =
    | SetFormValue(fieldId: string, value: string)
    | SetContributionPeriod(period: string)
    | SetFormErrors(errors: map<string, string>)
    | SetResult(payload: Option<InvestmentResult>)
    | SetCalculating(calculating: bool)
    /** Any other action type: the `default` branch. */
    | Unknown

  type InvestmentStore = Store<State, Action>

  /** `initialState`: a monthly period, no other value, no errors, no result, not calculating. */
  function Initial(): State
  {
    State(FormState(map[PeriodField := Monthly], map[]), None, false)
  }

  /** The reducer: each action changes its own part of the state and nothing else. */
  function Reduce(state: State, action: Action): (next: State)
    ensures action.SetFormValue? ==>
      && next.formState.formValues == state.formState.formValues[action.fieldId := action.value]
      && next.formState.formErrors == state.formState.formErrors[action.fieldId := ""]
    ensures action.SetContributionPeriod? ==>
      next.formState == FormState(state.formState.formValues[PeriodField := action.period], state.formState.formErrors)
    ensures action.SetFormErrors? ==>
      next.formState == FormState(state.formState.formValues, action.errors)
    ensures action.SetResult? ==> next.result == action.payload
    ensures action.SetCalculating? ==> next.isCalculating == action.calculating
    ensures !action.SetFormValue? && !action.SetContributionPeriod? && !action.SetFormErrors? ==>
      next.formState == state.formState
    ensures !action.SetResult? ==> next.result == state.result
    ensures !action.SetCalculating? ==> next.isCalculating == state.isCalculating
  {
    match action
    case SetFormValue(fieldId, value) =>
      state.(formState := FormState(state.formState.formValues[fieldId := value],
                                    state.formState.formErrors[fieldId := ""]))
    case SetContributionPeriod(period) =>
      state.(formState := state.formState.(formValues := state.formState.formValues[PeriodField := period]))
    case SetFormErrors(errors) => state.(formState := state.formState.(formErrors := errors))
    case SetResult(payload) => state.(result := payload)
    case SetCalculating(calculating) => state.(isCalculating := calculating)
    case Unknown => state
  }

  /**
   * getShareableState: the form values, provided one of them is non-empty
   * and is not the default period "monthly".
   */
  function GetShareableState(state: State): (shared: Option<map<string, string>>)
    ensures shared.Some? ==> shared.value == state.formState.formValues
    ensures shared.None? <==>
      forall key :: key in state.formState.formValues ==> state.formState.formValues[key] in {"", Monthly}
  {
    var values := state.formState.formValues;
    if exists key :: key in values && values[key] != "" && values[key] != Monthly then Some(values) else None
  }

  /** The initial state has nothing worth sharing. */
  lemma InitialNotShareable()
    ensures GetShareableState(Initial()).None?
  {
    var values := Initial().formState.formValues;
    forall key | key in values
      ensures values[key] in {"", Monthly}
    {
      assert key == PeriodField;
    }
  }

  /** Typing a value other than "" and "monthly" into any field makes the state shareable. */
  lemma ShareableAfterInput(state: State, fieldId: string, value: string)
    requires value != "" && value != Monthly
    ensures GetShareableState(Reduce(state, SetFormValue(fieldId, value))) ==
      Some(state.formState.formValues[fieldId := value])
  {
    var values := Reduce(state, SetFormValue(fieldId, value)).formState.formValues;
    assert fieldId in values && values[fieldId] == value;
  }
}
