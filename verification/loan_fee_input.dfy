/**
 * loan-fee.input.tsx: the loan-fee form's input handlers, and the rule that
 * routes a saved value into one of its fields. `show` stands for
 * Number.prototype.toString.
 */
module LoanFeeInput {
  import opened Wrappers
  import opened Forms
  import opened Reducers
  import opened LoanCalculatorState
  import opened LoanWithFee
  import opened SavedValues

  type FeeStore = LoanStore<FeeLoanResult>

  /** String.prototype.toLowerCase on the ASCII letters. */
  function ToLower(s: string): (lower: string)
    ensures |lower| == |s|
    ensures forall i :: 0 <= i < |s| ==>
      lower[i] == if 'A' <= s[i] <= 'Z' then (s[i] as int + 32) as char else s[i]
  {
    if |s| == 0 then []
    else [if 'A' <= s[0] <= 'Z' then (s[0] as int + 32) as char else s[0]] + ToLower(s[1..])
  }

  /** `part` occurs in `s` starting at `i`. */
  predicate OccursAt(s: string, part: string, i: nat)
  {
    i + |part| <= |s| && s[i..i + |part|] == part
  }

  /** String.prototype.includes. */
  predicate Contains(s: string, part: string)
  {
    exists i: nat | i <= |s| :: OccursAt(s, part, i)
  }

  /** Lower-casing a string without capitals leaves it as it is. */
  lemma ToLowerKeepsLower(s: string)
    requires forall i :: 0 <= i < |s| ==> !('A' <= s[i] <= 'Z')
    ensures ToLower(s) == s
  {
  }

  /** The name fragments tried, in order, with the field each one selects. */
  const FieldMapping: seq<(string, string)> := [
    ("principal", "principal"),
    ("interestRate", "interestRate"),
    ("months", "months"),
    ("monthlyPayment", "monthlyPayment"),
    ("feePercentage", "feePercentage")
  ]

  /** The field of the first entry whose lower-cased key occurs in the lower-cased name. */
  function MatchField(lowerName: string, mapping: seq<(string, string)>): (field: Option<string>)
    ensures field.None? <==> forall i :: 0 <= i < |mapping| ==> !Contains(lowerName, ToLower(mapping[i].0))
    ensures field.Some? ==>
      exists i :: 0 <= i < |mapping| && mapping[i].1 == field.value && Contains(lowerName, ToLower(mapping[i].0)) &&
        forall j :: 0 <= j < i ==> !Contains(lowerName, ToLower(mapping[j].0))
  {
    if |mapping| == 0 then None
    else if Contains(lowerName, ToLower(mapping[0].0)) then Some(mapping[0].1)
    else
      var rest := MatchField(lowerName, mapping[1..]);
      assert forall i :: 1 <= i < |mapping| ==> mapping[1..][i - 1] == mapping[i];
      rest
  }

  /** The field a saved value by this name is routed to, when its name says. */
  function NamedField(name: string): Option<string>
  {
    MatchField(ToLower(name), FieldMapping)
  }

  /**
   * The field handleSavedValueSelect writes: the one the name matches;
   * failing that, a guess from the value's type and size; or none.
   */
  function SavedValueField(saved: SavedValue): (field: Option<string>)
    ensures NamedField(saved.name).Some? ==> field == NamedField(saved.name)
    ensures NamedField(saved.name).None? && saved.valueType == Currency ==>
      && (field == Some("principal") <==> saved.value > 10000.0)
      && (field == Some("monthlyPayment") <==> 1000.0 < saved.value <= 10000.0)
      && (field.None? <==> saved.value <= 1000.0)
    ensures NamedField(saved.name).None? && saved.valueType == Percentage ==>
      field == Some(if saved.value > 10.0 then "interestRate" else "feePercentage")
    ensures NamedField(saved.name).None? && saved.valueType == Number ==>
      (field.Some? <==> saved.value > 12.0) && (field.Some? ==> field.value == "months")
  {
    match NamedField(saved.name)
    case Some(field) => Some(field)
    case None =>
      if saved.valueType == Currency && saved.value > 1000.0 then
        Some(if saved.value > 10000.0 then "principal" else "monthlyPayment")
      else if saved.valueType == Percentage then
        Some(if saved.value > 10.0 then "interestRate" else "feePercentage")
      else if saved.valueType == Number && saved.value > 12.0 then Some("months")
      else None
  }

  /** Whatever the rule picks is one of the form's five fields. */
  lemma SavedValueFieldKnown(saved: SavedValue)
    ensures SavedValueField(saved).Some? ==>
      SavedValueField(saved).value in {"principal", "interestRate", "months", "monthlyPayment", "feePercentage"}
  {
    var named := NamedField(saved.name);
    if named.Some? {
      var i :| 0 <= i < |FieldMapping| && FieldMapping[i].1 == named.value;
      assert i == 0 || i == 1 || i == 2 || i == 3 || i == 4;
    }
  }

  /** A name mentioning "principal", in any case, goes to the principal whatever its type. */
  lemma PrincipalNameWins(saved: SavedValue, at: nat)
    requires at + 9 <= |saved.name| && ToLower(saved.name[at..at + 9]) == "principal"
    ensures SavedValueField(saved) == Some("principal")
  {
    var lower := ToLower(saved.name);
    assert lower[at..at + 9] == ToLower(saved.name[at..at + 9]);
    ToLowerKeepsLower("principal");
    assert OccursAt(lower, ToLower(FieldMapping[0].0), at);
    assert NamedField(saved.name) == Some("principal");
  }

  /** handleInputChange: one SetFormValue carrying the field and the value. */
  method HandleInputChange(store: FeeStore, fieldId: string, value: string)
    requires store.Valid()
    modifies store
    ensures store.Valid() && store.start == old(store.start)
    ensures store.dispatched == old(store.dispatched) + [SetFormValue(fieldId, value)]
    ensures store.state == store.reducer(old(store.state), SetFormValue(fieldId, value))
  {
    store.Dispatch(SetFormValue(fieldId, value));
  }

  /** handleModeChange: one SetCalculationMode carrying the mode. */
  method HandleModeChange(store: FeeStore, mode: CalculationMode)
    requires store.Valid()
    modifies store
    ensures store.Valid() && store.start == old(store.start)
    ensures store.dispatched == old(store.dispatched) + [SetCalculationMode(mode)]
    ensures store.state == store.reducer(old(store.state), SetCalculationMode(mode))
  {
    store.Dispatch(SetCalculationMode(mode));
  }

  /** handleSavedValueSelect: at most one field is written, with the value's text. */
  method HandleSavedValueSelect(store: FeeStore, saved: SavedValue, show: real -> string)
    requires store.Valid()
    modifies store
    ensures store.Valid() && store.start == old(store.start)
    ensures store.dispatched == old(store.dispatched) +
      match SavedValueField(saved)
      case Some(field) => [SetFormValue(field, show(saved.value))]
      case None => []
  {
    var field := SavedValueField(saved);
    if field.Some? {
      HandleInputChange(store, field.value, show(saved.value));
    }
  }
}
