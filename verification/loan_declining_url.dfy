/**
 * loan-declining.url.ts: the declining-balance calculator's form and mode
 * to and from query parameters.
 */
module LoanDecliningUrl {
  import opened Wrappers
  import opened Forms
  import opened SearchParams

  /** The only parameters read back into the form. */
  const FormFields: seq<string> := ["principal", "interestRate", "months", "monthlyPayment"]

  /** A placeholder value that is never copied into the form. */
  const Placeholder: string := "CALC"

  /** The form values read from the first entries of a parameter list. */
  function Converted(params: Params): map<string, string>
  {
    if |params| == 0 then map[]
    else
      var before := Converted(params[..|params| - 1]);
      var (key, value) := params[|params| - 1];
      if value != Placeholder && key in FormFields then before[key := value] else before
  }

  /**
   * convertSearchParamsToFormState: every parameter in order, skipping the
   * placeholder and unknown names; a later value overwrites an earlier one.
   */
  method ConvertSearchParamsToFormState(params: Params) returns (form: FormState)
    ensures form == FormState(Converted(params), map[])
    ensures forall key :: key in form.formValues ==> key in FormFields && form.formValues[key] != Placeholder
  {
    var formValues: map<string, string> := map[];
    var i := 0;
    while i < |params|
      invariant 0 <= i <= |params|
      invariant formValues == Converted(params[..i])
      invariant forall key :: key in formValues ==> key in FormFields && formValues[key] != Placeholder
    {
      assert params[..i + 1][..i] == params[..i];
      var (key, value) := params[i];
      if value != Placeholder && key in FormFields {
        formValues := formValues[key := value];
      }
      i := i + 1;
    }
    assert params[..|params|] == params;
    form := FormState(formValues, map[]);
  }

  /** On a list with distinct names, a field is read back exactly when its parameter is there and is not the placeholder. */
  lemma {:induction false} ConvertedField(params: Params, key: string)
    requires DistinctKeys(params)
    ensures key in Converted(params) <==>
      key in FormFields && Get(params, key).Some? && Get(params, key).value != Placeholder
    ensures key in Converted(params) ==> Converted(params)[key] == Get(params, key).value
    decreases |params|
  {
    if |params| > 0 {
      var prefix := params[..|params| - 1];
      var last := params[|params| - 1];
      assert params == prefix + [last];
      LastNameFresh(params);
      ConvertedField(prefix, key);
      GetAppend(prefix, last, key);
    }
  }

  /** getCalculationModeFromUrl: a valid `mode` parameter, else by term. */
  function GetCalculationModeFromUrl(params: Params): (mode: CalculationMode)
    ensures mode == ByPayment <==> Get(params, "mode") == Some("by-payment")
    ensures Get(params, "mode") == Some(ModeName(mode)) || mode == ByTerm
  {
    match Get(params, "mode")
    case Some(name) => if name == "by-payment" then ByPayment else ByTerm
    case None => ByTerm
  }

  /** What a shared parameter list holds for a form and a mode. */
  ghost predicate Shares(params: Params, values: map<string, string>, mode: CalculationMode)
  {
    && DistinctKeys(params)
    && Get(params, "mode") == Some(ModeName(mode))
    && (forall key :: key != "mode" ==>
          Get(params, key) == if key in FormFields && Filled(values, key) then Some(values[key]) else None)
  }

  /** Some field of the form would be shared. */
  predicate AnyFilled(values: map<string, string>)
  {
    exists i :: 0 <= i < |FormFields| && Filled(values, FormFields[i])
  }

  /** A list holding exactly the filled fields among the first `n`. */
  ghost predicate SharesFirst(params: Params, values: map<string, string>, n: nat)
    requires n <= |FormFields|
  {
    && DistinctKeys(params)
    && (forall key :: Get(params, key) ==
          if key in FormFields[..n] && Filled(values, key) then Some(values[key]) else None)
  }

  /** One `if (value) params.set(field, value)` step. */
  lemma SetStep(params: Params, values: map<string, string>, n: nat)
    requires n < |FormFields| && SharesFirst(params, values, n)
    ensures var field := FormFields[n];
      SharesFirst(if Filled(values, field) then Set(params, field, values[field]) else params, values, n + 1)
  {
    assert FormFields[..n + 1] == FormFields[..n] + [FormFields[n]];
    assert forall i, j :: 0 <= i < j < |FormFields| ==> FormFields[i] != FormFields[j];
  }

  /** The closing `params.set("mode", calculationMode)`. */
  lemma ModeStep(params: Params, values: map<string, string>, mode: CalculationMode)
    requires SharesFirst(params, values, |FormFields|)
    ensures Shares(Set(params, "mode", ModeName(mode)), values, mode)
  {
    assert FormFields[..|FormFields|] == FormFields;
  }

  /** A shared list names something besides `mode` exactly when a field is filled. */
  lemma OtherKeyIffFilled(params: Params, values: map<string, string>, mode: CalculationMode)
    requires Shares(params, values, mode)
    ensures (exists j :: 0 <= j < |params| && params[j].0 != "mode") <==> AnyFilled(values)
  {
    if exists j :: 0 <= j < |params| && params[j].0 != "mode" {
      var j :| 0 <= j < |params| && params[j].0 != "mode";
      assert Get(params, params[j].0).Some?;
    }
    if AnyFilled(values) {
      var k :| 0 <= k < |FormFields| && Filled(values, FormFields[k]);
      assert Get(params, FormFields[k]).Some?;
    }
  }

  /**
   * generateShareableUrlState: the non-empty fields, then the mode; nothing
   * when no field is filled in.
   */
  method GenerateShareableUrlState(form: FormState, calculationMode: CalculationMode)
    returns (shared: Option<Params>)
    ensures shared.None? <==> !AnyFilled(form.formValues)
    ensures shared.Some? ==> Shares(shared.value, form.formValues, calculationMode)
  {
    var values := form.formValues;
    var params: Params := [];
    SetStep(params, values, 0);
    if Filled(values, "principal") {
      params := Set(params, "principal", values["principal"]);
    }
    SetStep(params, values, 1);
    if Filled(values, "interestRate") {
      params := Set(params, "interestRate", values["interestRate"]);
    }
    SetStep(params, values, 2);
    if Filled(values, "months") {
      params := Set(params, "months", values["months"]);
    }
    SetStep(params, values, 3);
    if Filled(values, "monthlyPayment") {
      params := Set(params, "monthlyPayment", values["monthlyPayment"]);
    }
    ModeStep(params, values, calculationMode);
    params := Set(params, "mode", ModeName(calculationMode));

    var hasValues := false;
    var i := 0;
    while i < |params| && !hasValues
      invariant 0 <= i <= |params|
      invariant hasValues <==> exists j :: 0 <= j < i && params[j].0 != "mode"
    {
      if params[i].0 != "mode" {
        hasValues := true;
      }
      i := i + 1;
    }
    OtherKeyIffFilled(params, values, calculationMode);
    shared := if hasValues then Some(params) else None;
  }

  /**
   * Reading a shared list back gives the filled fields (except those
   * holding the placeholder) and the mode.
   */
  lemma ShareRoundTrip(params: Params, values: map<string, string>, mode: CalculationMode, key: string)
    requires Shares(params, values, mode)
    ensures GetCalculationModeFromUrl(params) == mode
    ensures key in Converted(params) <==> key in FormFields && Filled(values, key) && values[key] != Placeholder
    ensures key in Converted(params) ==> Converted(params)[key] == values[key]
  {
    ConvertedField(params, key);
  }
}
