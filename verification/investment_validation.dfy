/**
 * investment-calculator.validation.tsx: every numeric field that is not
 * blank must parse to a number that is not negative. `parse` stands for
 * parseFloat, with None for NaN.
 */
module InvestmentValidation {
  import opened Wrappers
  import opened Forms
  import opened Reducers
  import opened InvestmentState

  const InvalidNumber: string := "Must be a valid number"
  const NegativeNumber: string := "Must be a positive number"

  /** The message for one field's text, if it has one. */
  function FieldError(value: string, parse: string -> Option<real>): (error: Option<string>)
    ensures error.None? <==> Blank(value) || (parse(value).Some? && parse(value).value >= 0.0)
    ensures error.Some? ==> error.value == if parse(value).None? then InvalidNumber else NegativeNumber
  {
    if Blank(value) then None
    else match parse(value)
      case None => Some(InvalidNumber)
      case Some(number) => if number < 0.0 then Some(NegativeNumber) else None
  }

  /** Every field except the period is blank or a number that is not negative. */
  ghost predicate Accepted(values: map<string, string>, parse: string -> Option<real>)
  {
    forall key :: key in values && key != PeriodField && !Blank(values[key]) ==>
      parse(values[key]).Some? && parse(values[key]).value >= 0.0
  }

  /** The `newErrors` map validateForm builds. */
  function ValidationErrors(values: map<string, string>, parse: string -> Option<real>): (errors: map<string, string>)
    ensures PeriodField !in errors
    ensures forall key :: key in errors ==> key in values && !Blank(values[key])
    ensures forall key :: key in errors ==> errors[key] in {InvalidNumber, NegativeNumber}
    ensures errors == map[] <==> Accepted(values, parse)
  {
    var errors := map key | key in values && key != PeriodField && FieldError(values[key], parse).Some? ::
      FieldError(values[key], parse).value;
    assert errors == map[] <==> Accepted(values, parse) by {
      if !Accepted(values, parse) {
        var key :| key in values && key != PeriodField && !Blank(values[key]) &&
          !(parse(values[key]).Some? && parse(values[key]).value >= 0.0);
        assert key in errors;
      }
    }
    errors
  }

  /**
   * validateForm: one error per offending field, dispatched as the new
   * error map; the form is valid when that map is empty.
   */
  method ValidateForm(store: InvestmentStore, parse: string -> Option<real>) returns (valid: bool)
    requires store.Valid()
    modifies store
    ensures store.Valid() && store.start == old(store.start)
    ensures store.dispatched ==
      old(store.dispatched) + [SetFormErrors(ValidationErrors(old(store.state.formState.formValues), parse))]
    ensures store.state ==
      store.reducer(old(store.state), SetFormErrors(ValidationErrors(old(store.state.formState.formValues), parse)))
    ensures valid <==> Accepted(old(store.state.formState.formValues), parse)
  {
    var values := store.state.formState.formValues;
    var newErrors: map<string, string> := map[];
    var pending := values.Keys;
    while pending != {}
      invariant pending <= values.Keys
      invariant forall key :: key in newErrors <==>
        key in values && key !in pending && key != PeriodField && FieldError(values[key], parse).Some?
      invariant forall key :: key in newErrors ==> newErrors[key] == FieldError(values[key], parse).value
      decreases pending
    {
      var fieldId :| fieldId in pending;
      pending := pending - {fieldId};
      if fieldId != PeriodField {
        var value := values[fieldId];
        if !Blank(value) {
          var number := parse(value);
          if number.None? {
            newErrors := newErrors[fieldId := InvalidNumber];
          } else if number.value < 0.0 {
            newErrors := newErrors[fieldId := NegativeNumber];
          }
        }
      }
    }
    assert newErrors == ValidationErrors(values, parse);
    store.Dispatch(SetFormErrors(newErrors));
    valid := |newErrors| == 0;
    assert valid <==> newErrors == map[] by {
      if !valid {
        var key :| key in newErrors;
      }
    }
  }
}
