/**
 * loan-declining.calculation.tsx: check the form field by field, then run
 * the declining-balance engine in the selected mode. `parse` stands for
 * parseFloat, with None for NaN.
 */
module LoanDecliningCalculation {
  import opened Wrappers
  import opened Numeric
  import opened Forms
  import opened Reducers
  import opened LoanCalculatorState
  import opened LoanSchedule

  type DecliningStore = LoanStore<LoanResult>

  /** The error map the hook dispatches: one message per field. */
  function FieldErrors(principal: string, interestRate: string, months: string, monthlyPayment: string): map<string, string>
  {
    map["principal" := principal, "interestRate" := interestRate, "months" := months, "monthlyPayment" := monthlyPayment]
  }

  /** How a calculation request ends. */
  datatype Request =
    /** Errors are set before the calculating flag is raised. */
    | Rejected(errors: map<string, string>)
    /** Errors are set after the flag is raised; the `finally` lowers it. */
    | Abandoned(errors: map<string, string>)
    /** The engine runs on these inputs. */
    | Run(principal: real, annualRate: real, terms: LoanTerms)

  /** A positive number parsed from a filled field. */
  predicate PositiveField(values: map<string, string>, key: string, parse: string -> Option<real>)
  {
    Filled(values, key) && parse(values[key]).Some? && parse(values[key]).value > 0.0
  }

  /** The terms part of the form, once principal and rate are accepted. */
  function TermsRequest(values: map<string, string>, mode: CalculationMode, parse: string -> Option<real>,
                        principal: real, annualRate: real): (request: Request)
    ensures !request.Rejected?
    ensures request.Run? <==>
      PositiveField(values, if mode == CalculationMode.ByTerm then "months" else "monthlyPayment", parse)
    ensures request.Run? ==>
      && request.principal == principal && request.annualRate == annualRate
      && (request.terms.ByTerm? <==> mode == CalculationMode.ByTerm)
      && (request.terms.ByTerm? ==> request.terms.months == parse(values["months"]).value.Floor)
      && (request.terms.ByPayment? ==> Some(request.terms.monthlyPayment) == parse(values["monthlyPayment"]))
    ensures request.Abandoned? ==> request.errors.Keys == {"principal", "interestRate", "months", "monthlyPayment"}
  {
    if mode == CalculationMode.ByTerm then
      if !Filled(values, "months") then Abandoned(FieldErrors("", "", "Loan term is required", ""))
      else
        var months := parse(values["months"]);
        if months.None? || months.value <= 0.0 then
          Abandoned(FieldErrors("", "", "Loan term must be a positive number", ""))
        else Run(principal, annualRate, LoanTerms.ByTerm(months.value.Floor))
    else if !Filled(values, "monthlyPayment") then
      Abandoned(FieldErrors("", "", "", "Monthly payment is required"))
    else
      var monthlyPayment := parse(values["monthlyPayment"]);
      if monthlyPayment.None? || monthlyPayment.value <= 0.0 then
        Abandoned(FieldErrors("", "", "", "Monthly payment must be a positive number"))
      else Run(principal, annualRate, LoanTerms.ByPayment(monthlyPayment.value))
  }

  /** The decisions calculateLoan takes before and around the engine call. */
  function DecliningRequest(values: map<string, string>, mode: CalculationMode, parse: string -> Option<real>)
    : (request: Request)
    ensures request.Rejected? <==>
      || !PositiveField(values, "principal", parse)
      || !Filled(values, "interestRate")
      || parse(values["interestRate"]).None? || parse(values["interestRate"]).value < 0.0
    ensures !request.Run? ==> request.errors.Keys == {"principal", "interestRate", "months", "monthlyPayment"}
    ensures request.Rejected? && Filled(values, "principal") && Filled(values, "interestRate") ==>
      (request.errors["principal"] == "") != (request.errors["interestRate"] == "")
    ensures !request.Rejected? ==>
      request == TermsRequest(values, mode, parse, parse(values["principal"]).value, parse(values["interestRate"]).value)
    ensures request.Run? ==>
      && Some(request.principal) == parse(values["principal"]) && request.principal > 0.0
      && Some(request.annualRate) == parse(values["interestRate"]) && request.annualRate >= 0.0
  {
    if !Filled(values, "principal") || !Filled(values, "interestRate") then
      Rejected(FieldErrors(if Filled(values, "principal") then "" else "Principal amount is required",
                           if Filled(values, "interestRate") then "" else "Interest rate is required", "", ""))
    else
      var principal := parse(values["principal"]);
      var interestRate := parse(values["interestRate"]);
      if principal.None? || principal.value <= 0.0 then
        Rejected(FieldErrors("Principal must be a positive number", "", "", ""))
      else if interestRate.None? || interestRate.value < 0.0 then
        Rejected(FieldErrors("", "Interest rate must be a non-negative number", "", ""))
      else TermsRequest(values, mode, parse, principal.value, interestRate.value)
  }

  /** What the declining engine promises for one run. */
  ghost predicate EngineOutcome(principal: real, annualRate: real, terms: LoanTerms, res: Result<LoanResult, LoanError>)
  {
    && (terms.ByTerm? ==> (res.Failure? <==> Pow(1.0 + MonthlyRate(annualRate), terms.months) == 1.0))
    && (terms.ByTerm? && res.Success? ==> DecliningByTermOutcome(principal, annualRate, terms.months, res.value))
    && (terms.ByPayment? && res.Success? ==> DecliningByPaymentOutcome(principal, annualRate, terms.monthlyPayment, res.value))
    && (terms.ByPayment? && res.Failure? ==> PaymentTooLowAt(principal, annualRate, terms.monthlyPayment))
  }

  /** The engine run inside the calculating flag. */
  method RunEngine(store: DecliningStore, principal: real, annualRate: real, terms: LoanTerms)
    returns (ghost engine: Result<LoanResult, LoanError>)
    requires store.Valid() && store.reducer == Reduce
    modifies store
    ensures store.Valid() && store.start == old(store.start)
    ensures store.dispatched == old(store.dispatched) +
      [SetCalculating(true), SetResult(if engine.Success? then Some(engine.value) else None), SetCalculating(false)]
    ensures EngineOutcome(principal, annualRate, terms, engine)
    ensures !store.state.isCalculating
  {
    store.Dispatch(SetCalculating(true));
    var loan := DecliningBalanceLoan(principal, annualRate, terms);
    engine := loan;
    store.Dispatch(SetResult(if loan.Success? then Some(loan.value) else None));
    store.Dispatch(SetCalculating(false));
  }

  /**
   * calculateLoan. A rejected form only gets its errors; otherwise the flag
   * is raised, the engine runs (its failure stores no result, as a thrown
   * error does) and the flag is lowered on every path.
   */
  method CalculateLoan(store: DecliningStore, parse: string -> Option<real>)
    returns (ghost engine: Result<LoanResult, LoanError>)
    requires store.Valid() && store.reducer == Reduce
    modifies store
    ensures store.Valid() && store.start == old(store.start)
    ensures match DecliningRequest(old(store.state.formState.formValues), old(store.state.calculationMode), parse)
      case Rejected(errors) =>
        && store.dispatched == old(store.dispatched) + [SetFormErrors(errors)]
        && store.state.isCalculating == old(store.state.isCalculating)
      case Abandoned(errors) =>
        && store.dispatched == old(store.dispatched) + [SetCalculating(true), SetFormErrors(errors), SetCalculating(false)]
        && !store.state.isCalculating
      case Run(principal, annualRate, terms) =>
        && store.dispatched == old(store.dispatched) +
             [SetCalculating(true), SetResult(if engine.Success? then Some(engine.value) else None), SetCalculating(false)]
        && EngineOutcome(principal, annualRate, terms, engine)
        && !store.state.isCalculating
  {
    var request := DecliningRequest(store.state.formState.formValues, store.state.calculationMode, parse);
    engine := Failure(PaymentTooLow);
    match request
    case Rejected(errors) =>
      store.Dispatch(SetFormErrors(errors));
    case Abandoned(errors) =>
      store.Dispatch(SetCalculating(true));
      store.Dispatch(SetFormErrors(errors));
      store.Dispatch(SetCalculating(false));
    case Run(principal, annualRate, terms) =>
      engine := RunEngine(store, principal, annualRate, terms);
  }
}
