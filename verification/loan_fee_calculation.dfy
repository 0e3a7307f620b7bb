/**
 * loan-fee.calculation.tsx: ignore a call while a calculation runs, read
 * the inputs, then run the fee engine in the selected mode. `parse` stands
 * for parseFloat, with None for NaN.
 */
module LoanFeeCalculation {
  import opened Wrappers
  import opened Numeric
  import opened Forms
  import opened Reducers
  import opened LoanCalculatorState
  import opened LoanSchedule
  import opened LoanWithFee
  import opened LoanFeeInput

  /** `formValues[key] || "0"`. */
  function TextOrZero(values: map<string, string>, key: string): string
  {
    if Filled(values, key) then values[key] else "0"
  }

  /** `formValues[key] === ""`: present and empty, unlike an absent field. */
  predicate EmptyString(values: map<string, string>, key: string)
  {
    key in values && values[key] == ""
  }

  /** How a calculation request ends. */
  datatype Request =
    /** Nothing is dispatched. */
    | Ignored
    /** The flag is raised and lowered, no result is stored. */
    | Abandoned
    /** The engine runs on these inputs. */
    | Run(principal: real, feePercentage: real, annualRate: real, terms: LoanTerms)

  /** The decisions `calculate` takes before and around the engine call. */
  function FeeRequest(state: State<FeeLoanResult>, parse: string -> Option<real>): (request: Request)
    ensures state.isCalculating ==> request == Ignored
    ensures var values := state.formState.formValues;
      !state.isCalculating ==>
        (request == Ignored <==>
           || EmptyString(values, "principal") || EmptyString(values, "feePercentage") || EmptyString(values, "interestRate")
           || parse(TextOrZero(values, "principal")).None?
           || parse(TextOrZero(values, "feePercentage")).None?
           || parse(TextOrZero(values, "interestRate")).None?)
    ensures var values := state.formState.formValues;
      var field := if state.calculationMode == CalculationMode.ByTerm then "months" else "monthlyPayment";
      request != Ignored ==>
        (request.Run? <==> Filled(values, field) && parse(values[field]).Some? && parse(values[field]).value > 0.0)
    ensures var values := state.formState.formValues;
      request.Run? ==>
        && Some(request.principal) == parse(TextOrZero(values, "principal"))
        && Some(request.feePercentage) == parse(TextOrZero(values, "feePercentage"))
        && Some(request.annualRate) == parse(TextOrZero(values, "interestRate"))
        && (request.terms.ByTerm? <==> state.calculationMode == CalculationMode.ByTerm)
        && (request.terms.ByTerm? ==> request.terms.months == parse(values["months"]).value.Floor)
        && (request.terms.ByPayment? ==> Some(request.terms.monthlyPayment) == parse(values["monthlyPayment"]))
  {
    var values := state.formState.formValues;
    if state.isCalculating then Ignored
    else
      var principal := parse(TextOrZero(values, "principal"));
      var feePercentage := parse(TextOrZero(values, "feePercentage"));
      var interestRate := parse(TextOrZero(values, "interestRate"));
      if || EmptyString(values, "principal") || EmptyString(values, "feePercentage") || EmptyString(values, "interestRate")
         || principal.None? || feePercentage.None? || interestRate.None? then Ignored
      else if state.calculationMode == CalculationMode.ByTerm then
        var months := parse(TextOrZero(values, "months"));
        if !Filled(values, "months") || months.None? || months.value <= 0.0 then Abandoned
        else Run(principal.value, feePercentage.value, interestRate.value, LoanTerms.ByTerm(months.value.Floor))
      else
        var monthlyPayment := parse(TextOrZero(values, "monthlyPayment"));
        if !Filled(values, "monthlyPayment") || monthlyPayment.None? || monthlyPayment.value <= 0.0 then Abandoned
        else Run(principal.value, feePercentage.value, interestRate.value, LoanTerms.ByPayment(monthlyPayment.value))
  }

  /** What the fee engine promises for one run. */
  ghost predicate EngineOutcome(principal: real, feePercentage: real, annualRate: real, terms: LoanTerms,
                                res: Result<FeeLoanResult, LoanError>)
  {
    var total := principal + principal * (feePercentage / 100.0);
    && (terms.ByTerm? ==> (res.Failure? <==> Pow(1.0 + MonthlyRate(annualRate), terms.months) == 1.0))
    && (terms.ByTerm? && res.Success? ==> DecliningByTermOutcome(total, annualRate, terms.months, res.value.loan))
    && (terms.ByPayment? && res.Success? ==> DecliningByPaymentOutcome(total, annualRate, terms.monthlyPayment, res.value.loan))
    && (terms.ByPayment? && res.Failure? ==> PaymentTooLowAt(total, annualRate, terms.monthlyPayment))
    && (res.Success? ==>
          && res.value.initialFee == principal * (feePercentage / 100.0)
          && LowestRate <= res.value.equivalentInterestRate <= HighestRate)
  }

  /** The engine run inside the calculating flag. */
  method RunEngine(store: FeeStore, principal: real, feePercentage: real, annualRate: real, terms: LoanTerms)
    returns (ghost engine: Result<FeeLoanResult, LoanError>)
    requires store.Valid() && store.reducer == Reduce
    modifies store
    ensures store.Valid() && store.start == old(store.start)
    ensures store.dispatched == old(store.dispatched) + [SetCalculating(true)] +
      (if engine.Success? then [SetResult(Some(engine.value))] else []) + [SetCalculating(false)]
    ensures EngineOutcome(principal, feePercentage, annualRate, terms, engine)
    ensures store.state.result == (if engine.Success? then Some(engine.value) else old(store.state.result))
    ensures !store.state.isCalculating
  {
    store.Dispatch(SetCalculating(true));
    var loan := CalculateLoanWithFee(principal, feePercentage, annualRate, terms);
    engine := loan;
    if loan.Success? {
      store.Dispatch(SetResult(Some(loan.value)));
    }
    store.Dispatch(SetCalculating(false));
  }

  /**
   * calculate. An ignored call dispatches nothing; otherwise the flag is
   * raised, a successful run stores its result (a failure leaves the old
   * one, as a thrown error does) and the flag is lowered on every path.
   */
  method Calculate(store: FeeStore, parse: string -> Option<real>)
    returns (ghost engine: Result<FeeLoanResult, LoanError>)
    requires store.Valid() && store.reducer == Reduce
    modifies store
    ensures store.Valid() && store.start == old(store.start)
    ensures match FeeRequest(old(store.state), parse)
      case Ignored =>
        store.dispatched == old(store.dispatched) && store.state == old(store.state)
      case Abandoned =>
        && store.dispatched == old(store.dispatched) + [SetCalculating(true), SetCalculating(false)]
        && store.state == old(store.state).(isCalculating := false)
      case Run(principal, feePercentage, annualRate, terms) =>
        && store.dispatched == old(store.dispatched) + [SetCalculating(true)] +
             (if engine.Success? then [SetResult(Some(engine.value))] else []) + [SetCalculating(false)]
        && EngineOutcome(principal, feePercentage, annualRate, terms, engine)
        && store.state.result == (if engine.Success? then Some(engine.value) else old(store.state.result))
        && !store.state.isCalculating
  {
    var request := FeeRequest(store.state, parse);
    engine := Failure(PaymentTooLow);
    match request
    case Ignored =>
    case Abandoned =>
      store.Dispatch(SetCalculating(true));
      store.Dispatch(SetCalculating(false));
    case Run(principal, feePercentage, annualRate, terms) =>
      engine := RunEngine(store, principal, feePercentage, annualRate, terms);
  }
}
