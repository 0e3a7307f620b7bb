/**
 * The form state every calculator keeps: the text of each field (a field
 * that was never set is absent) and one error message per field. The
 * loan calculators also keep the calculation mode.
 */
module Forms {
  datatype FormState = FormState(formValues: map<string, string>, formErrors: map<string, string>)

  /** "by-term" or "by-payment". */
  datatype CalculationMode = ByTerm | ByPayment

  /** The enum's string value, as it appears in URLs. */
  function ModeName(mode: CalculationMode): (name: string)
    ensures name == "by-term" <==> mode == ByTerm
    ensures name == "by-payment" <==> mode == ByPayment
  {
    match mode
    case ByTerm => "by-term"
    case ByPayment => "by-payment"
  }

  /** A field is truthy in JavaScript when it is present and not the empty string. */
  predicate Filled(values: map<string, string>, key: string)
  {
    key in values && values[key] != ""
  }

  /** The characters String.prototype.trim removes (the ASCII ones). */
  predicate IsWhitespace(c: char)
  {
    c == ' ' || c == '\t' || c == '\n' || c == '\r' || c == '\U{B}' || c == '\U{C}'
  }

  /** `!(value && value.trim() !== "")`: empty, or nothing but whitespace. */
  predicate Blank(value: string)
  {
    forall i :: 0 <= i < |value| ==> IsWhitespace(value[i])
  }
}
