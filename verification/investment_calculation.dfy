/**
 * investment-calculator.calculation.tsx: with exactly one of the five
 * numeric fields left empty, solve for it, re-run the projector with the
 * solved value in its slot, and store the tagged result. `parse` stands
 * for parseFloat and `ln` for Math.log.
 */
module InvestmentCalculation {
  import opened Wrappers
  import opened Numeric
  import opened Forms
  import opened Reducers
  import opened InvestmentProjection
  import opened InvestmentSolvers
  import opened InvestmentState
  import opened InvestmentValidation

  datatype Field = InitialAmount | ContributionAmount | Months | InterestRate | FinalValue

  /** The five fields in the order the hook lists them. */
  const Fields: seq<Field> := [InitialAmount, ContributionAmount, Months, InterestRate, FinalValue]

  function Key(field: Field): string
  {
    match field
    case InitialAmount => "initialAmount"
    case ContributionAmount => "contributionAmount"
    case Months => "months"
    case InterestRate => "interestRate"
    case FinalValue => "finalValue"
  }

  /** The `solvedFor` tag; the contribution's names the period. */
  function Label(field: Field, periodLabel: string): string
  {
    match field
    case InitialAmount => "Initial Investment"
    case ContributionAmount => periodLabel + " Contribution"
    case Months => "Investment Period"
    case InterestRate => "Interest Rate"
    case FinalValue => "Final Value"
  }

  /** The fields among `fields` that have no value, in order. */
  function Missing(fields: seq<Field>, values: map<string, real>): (empty: seq<Field>)
    ensures forall f :: f in empty <==> f in fields && Key(f) !in values
    ensures |empty| <= |fields|
  {
    if |fields| == 0 then []
    else
      var rest := Missing(fields[1..], values);
      if Key(fields[0]) !in values then [fields[0]] + rest else rest
  }

  /** `emptyFields`: the fields left undefined. */
  function EmptyFields(values: map<string, real>): seq<Field>
  {
    Missing(Fields, values)
  }

  predicate NoRepeats(fields: seq<Field>)
  {
    forall i, j :: 0 <= i < j < |fields| ==> fields[i] != fields[j]
  }

  /** Every field is one of the five listed. */
  lemma FieldsListed(f: Field)
    ensures f in Fields
  {
    match f
    case InitialAmount => assert Fields[0] == f;
    case ContributionAmount => assert Fields[1] == f;
    case Months => assert Fields[2] == f;
    case InterestRate => assert Fields[3] == f;
    case FinalValue => assert Fields[4] == f;
  }

  /** One missing field means the others all have values. */
  lemma SoleMissing(fields: seq<Field>, values: map<string, real>)
    requires |Missing(fields, values)| == 1
    ensures var f := Missing(fields, values)[0];
      f in fields && Key(f) !in values && forall g :: g in fields && g != f ==> Key(g) in values
  {
    var empty := Missing(fields, values);
    assert empty[0] in empty;
  }

  /** With every field filled in, none is missing. */
  lemma {:induction false} NoneMissing(fields: seq<Field>, values: map<string, real>)
    requires forall g :: g in fields ==> Key(g) in values
    ensures Missing(fields, values) == []
    decreases |fields|
  {
    if |fields| > 0 {
      assert fields[0] in fields;
      NoneMissing(fields[1..], values);
    }
  }

  /** When only `f` lacks a value, it is the only field missing. */
  lemma {:induction false} OnlyMissing(fields: seq<Field>, values: map<string, real>, f: Field)
    requires NoRepeats(fields)
    requires f in fields && Key(f) !in values && forall g :: g in fields && g != f ==> Key(g) in values
    ensures Missing(fields, values) == [f]
    decreases |fields|
  {
    var rest := fields[1..];
    forall g | g in rest
      ensures g in fields && g != fields[0]
    {
      var k :| 0 <= k < |rest| && rest[k] == g;
      assert fields[k + 1] == g;
    }
    if fields[0] == f {
      NoneMissing(rest, values);
    } else {
      assert NoRepeats(rest) by {
        assert forall i :: 0 <= i < |rest| ==> rest[i] == fields[i + 1];
      }
      OnlyMissing(rest, values, f);
    }
  }

  /** Exactly one field is empty when exactly one key is absent. */
  lemma ExactlyOneEmpty(values: map<string, real>)
    ensures |EmptyFields(values)| == 1 <==>
      exists f :: Key(f) !in values && forall g :: g != f ==> Key(g) in values
  {
    if |EmptyFields(values)| == 1 {
      SoleMissing(Fields, values);
      var f := EmptyFields(values)[0];
      forall g | g != f
        ensures Key(g) in values
      {
        FieldsListed(g);
      }
    }
    if exists f :: Key(f) !in values && forall g :: g != f ==> Key(g) in values {
      var f :| Key(f) !in values && forall g :: g != f ==> Key(g) in values;
      FieldsListed(f);
      OnlyMissing(Fields, values, f);
    }
  }

  /** What a validated form yields: no negative value. */
  predicate NonNegative(values: map<string, real>)
  {
    forall key :: key in values ==> values[key] >= 0.0
  }

  /** `value ?? 0`. */
  function ValueOrZero(values: map<string, real>, key: string): real
  {
    if key in values then values[key] else 0.0
  }

  /** Array.from's length for a number of periods: negative counts as 0, fractions are cut off. */
  function Periods(x: real): (n: nat)
    ensures x >= 0.0 ==> n as real <= x < n as real + 1.0
    ensures x < 0.0 ==> n == 0
  {
    if x < 0.0 then 0 else x.Floor
  }

  /** A solved amount or rate as the projector reads it; with zero periods it is never read. */
  function Slot(value: Extended): real
  {
    if value.Finite? then value.value else 0.0
  }

  /** The projector's result tagged with what was solved. */
  function Tagged(result: InvestmentResult, tag: string, solved: Extended): InvestmentResult
  {
    result.(solvedFor := Some(tag), solvedValue := Some(solved))
  }

  /** What handleCalculate stores when `field` is the empty one. */
  ghost predicate Solution(values: map<string, real>, details: PeriodDetails, ln: real -> real,
                           field: Field, result: InvestmentResult)
    requires details.periodsPerYear > 0.0 && NonNegative(values)
  {
    var initial := ValueOrZero(values, "initialAmount");
    var amount := ValueOrZero(values, "contributionAmount");
    var periods := Periods(ValueOrZero(values, "months"));
    var rate := ValueOrZero(values, "interestRate");
    var target := ValueOrZero(values, "finalValue");
    var ppy := details.periodsPerYear;
    var tag := Label(field, details.displayLabel);
    match field
    case InitialAmount =>
      var solved := SolveForInitialAmountByPeriod(amount, periods, rate, target, ppy);
      result == Tagged(Projection(Flat(amount, periods), rate, solved, ppy), tag, Finite(solved))
    case ContributionAmount =>
      var solved := SolveForPeriodicAmount(initial, periods, rate, target, ppy);
      result == Tagged(Projection(Flat(Slot(solved), periods), rate, initial, ppy), tag, solved)
    case Months =>
      exists solved: real ::
        && PeriodsOutcome(initial, amount, rate, target, ppy, ln, Finite(solved))
        && result == Tagged(Projection(Flat(amount, Periods(solved)), rate, initial, ppy), tag, Finite(solved))
    case InterestRate =>
      exists solved: Extended, low: real, high: real ::
        && RateOutcome(initial, amount, periods, target, ppy, solved, low, high)
        && result == Tagged(Projection(Flat(amount, periods), Slot(solved), initial, ppy), tag, solved)
    case FinalValue =>
      && result == Tagged(Projection(Flat(amount, periods), rate, initial, ppy), tag, Finite(result.finalValue))
      && result.finalValue == FlatValue(initial, amount, PeriodicRate(rate, ppy), periods)
  }

  /** The periods solver answers Infinity on these values: the target is out of reach. */
  ghost predicate PeriodsUnbounded(values: map<string, real>, details: PeriodDetails, ln: real -> real)
    requires details.periodsPerYear > 0.0
  {
    PeriodsOutcome(ValueOrZero(values, "initialAmount"), ValueOrZero(values, "contributionAmount"),
                   ValueOrZero(values, "interestRate"), ValueOrZero(values, "finalValue"),
                   details.periodsPerYear, ln, Infinite)
  }

  /**
   * Run the solver for `field` and the projector. None when the periods
   * solver answers Infinity: Array.from then throws and the error is only
   * reported.
   */
  method Solve(values: map<string, real>, details: PeriodDetails, ln: real -> real, field: Field)
    returns (outcome: Option<InvestmentResult>)
    requires details.periodsPerYear > 0.0 && LogSigns(ln)
    requires NonNegative(values)
    ensures outcome.Some? ==> Solution(values, details, ln, field, outcome.value)
    ensures outcome.None? ==> field == Months && PeriodsUnbounded(values, details, ln)
  {
    var initial := ValueOrZero(values, "initialAmount");
    var amount := ValueOrZero(values, "contributionAmount");
    var periods := Periods(ValueOrZero(values, "months"));
    var rate := ValueOrZero(values, "interestRate");
    var target := ValueOrZero(values, "finalValue");
    var ppy := details.periodsPerYear;
    var tag := Label(field, details.displayLabel);
    match field
    case InitialAmount =>
      var solved := SolveForInitialAmountByPeriod(amount, periods, rate, target, ppy);
      var result := ProjectInvestmentByPeriod(Flat(amount, periods), rate, solved, ppy);
      outcome := Some(Tagged(result, tag, Finite(solved)));
    case ContributionAmount =>
      var solved := SolveForPeriodicAmount(initial, periods, rate, target, ppy);
      var result := ProjectInvestmentByPeriod(Flat(Slot(solved), periods), rate, initial, ppy);
      outcome := Some(Tagged(result, tag, solved));
    case Months =>
      var solved := SolveForPeriods(initial, amount, rate, target, ppy, ln);
      if solved.Finite? {
        var result := ProjectInvestmentByPeriod(Flat(amount, Periods(solved.value)), rate, initial, ppy);
        outcome := Some(Tagged(result, tag, solved));
      } else {
        outcome := None;
      }
    case InterestRate =>
      var solved, low, high := SolveForInterestRateByPeriod(initial, amount, periods, target, ppy);
      var result := ProjectInvestmentByPeriod(Flat(amount, periods), Slot(solved), initial, ppy);
      outcome := Some(Tagged(result, tag, solved));
    case FinalValue =>
      var solved := SolveForFinalValueByPeriod(initial, amount, periods, rate, ppy);
      var result := ProjectInvestmentByPeriod(Flat(amount, periods), rate, initial, ppy);
      FlatFinalValue(amount, periods, rate, initial, ppy);
      outcome := Some(Tagged(result, tag, Finite(solved)));
  }

  /**
   * handleCalculate: mark the store calculating, solve when exactly one
   * field is empty, store the tagged result, and clear the flag on every
   * path (the `finally`).
   */
  method HandleCalculate(store: InvestmentStore, values: map<string, real>, ln: real -> real)
    returns (ghost outcome: Option<InvestmentResult>)
    requires store.Valid() && store.reducer == Reduce
    requires LogSigns(ln)
    requires NonNegative(values)
    modifies store
    ensures store.Valid() && store.start == old(store.start)
    ensures store.dispatched == old(store.dispatched) + [SetCalculating(true)] +
      (if outcome.Some? then [SetResult(outcome)] else []) + [SetCalculating(false)]
    ensures !store.state.isCalculating
    ensures store.state.formState == old(store.state.formState)
    ensures store.state.result == if outcome.Some? then outcome else old(store.state.result)
    ensures outcome.Some? ==>
      |EmptyFields(values)| == 1 &&
      Solution(values, FormPeriodDetails(old(store.state.formState.formValues)), ln, EmptyFields(values)[0], outcome.value)
    ensures outcome.None? && |EmptyFields(values)| == 1 ==>
      && EmptyFields(values)[0] == Months
      && PeriodsUnbounded(values, FormPeriodDetails(old(store.state.formState.formValues)), ln)
  {
    var details := FormPeriodDetails(store.state.formState.formValues);
    store.Dispatch(SetCalculating(true));
    var emptyFields := EmptyFields(values);
    outcome := None;
    if |emptyFields| == 1 {
      var result := Solve(values, details, ln, emptyFields[0]);
      if result.Some? {
        store.Dispatch(SetResult(result));
      }
      outcome := result;
    }
    store.Dispatch(SetCalculating(false));
  }

  /** The `numericValues` handleFormSubmit builds from an accepted form. */
  function NumericValues(values: map<string, string>, parse: string -> Option<real>): (numbers: map<string, real>)
    requires Accepted(values, parse)
    ensures forall key :: key in numbers <==> key in values && key != PeriodField && !Blank(values[key])
    ensures forall key :: key in numbers ==> numbers[key] >= 0.0 && parse(values[key]) == Some(numbers[key])
  {
    map key | key in values && key != PeriodField && !Blank(values[key]) :: parse(values[key]).value
  }

  /**
   * handleFormSubmit: validate; when the form is valid, calculate from the
   * parsed non-blank fields other than the period.
   */
  method HandleFormSubmit(store: InvestmentStore, parse: string -> Option<real>, ln: real -> real)
    returns (ghost outcome: Option<InvestmentResult>)
    requires store.Valid() && store.reducer == Reduce
    requires LogSigns(ln)
    modifies store
    ensures store.Valid() && store.start == old(store.start)
    ensures var values := old(store.state.formState.formValues);
      var validation := [SetFormErrors(ValidationErrors(values, parse))];
      && (!Accepted(values, parse) ==> store.dispatched == old(store.dispatched) + validation && outcome.None?)
      && (Accepted(values, parse) ==>
            store.dispatched == old(store.dispatched) + validation + [SetCalculating(true)] +
              (if outcome.Some? then [SetResult(outcome)] else []) + [SetCalculating(false)])
    ensures var values := old(store.state.formState.formValues);
      outcome.Some? ==>
        && Accepted(values, parse)
        && var numbers := NumericValues(values, parse);
        && |EmptyFields(numbers)| == 1
        && Solution(numbers, FormPeriodDetails(values), ln, EmptyFields(numbers)[0], outcome.value)
    ensures var values := old(store.state.formState.formValues);
      Accepted(values, parse) && |EmptyFields(NumericValues(values, parse))| == 1 && outcome.None? ==>
        && EmptyFields(NumericValues(values, parse))[0] == Months
        && PeriodsUnbounded(NumericValues(values, parse), FormPeriodDetails(values), ln)
  {
    var values := store.state.formState.formValues;
    var valid := ValidateForm(store, parse);
    if !valid {
      return None;
    }
    var numericValues: map<string, real> := map[];
    var pending := values.Keys;
    while pending != {}
      invariant pending <= values.Keys
      invariant forall key :: key in numericValues <==>
        key in values && key !in pending && key != PeriodField && !Blank(values[key])
      invariant forall key :: key in numericValues ==> parse(values[key]) == Some(numericValues[key])
      decreases pending
    {
      var fieldId :| fieldId in pending;
      pending := pending - {fieldId};
      if fieldId != PeriodField && !Blank(values[fieldId]) {
        numericValues := numericValues[fieldId := parse(values[fieldId]).value];
      }
    }
    assert numericValues == NumericValues(values, parse);
    assert store.state.formState.formValues == values;
    outcome := HandleCalculate(store, numericValues, ln);
  }
}
