/** The amount field of the relationship dialog: `parseFloatSafe` and the
    submit step that passes its value on only when there is no error. */
module RelationshipAmount {
  import opened Wrappers
  import opened Text
  import opened Numbers

  const InvalidNumber := "Please enter a valid number"
  const TooLarge := "Number is too large"
  const OutOfRange := "Amount must be between 0 and 1,000,000"

  /** The largest amount the dialog accepts. */
  const MaxAmount: real := 1000000.0

  /** What `parseFloatSafe` returns: a value and an error message, if any. */
  datatype SafeParse = SafeParse(value: real, error: Option<string>)

  /** `parseFloatSafe`: blank input is the default amount 1; otherwise the
      trimmed text must match the numeric pattern and read as a number in
      (0, 1,000,000]. Every failure reports its message with the value 1. */
  function ParseFloatSafe(value: string): (r: SafeParse)
    ensures Trim(value) == "" ==> r == SafeParse(1.0, None)
    ensures r.error.Some? ==> r.value == 1.0
    ensures r.error == Some(InvalidNumber) <==> Trim(value) != "" && !NumberPattern(Trim(value))
    ensures r.error.None? ==> 0.0 < r.value <= MaxAmount
    ensures r.error.None? && Trim(value) != "" ==> ParseFloat(Trim(value)) == Some(r.value)
  {
    if Trim(value) == "" then SafeParse(1.0, None) else ParseTrimmed(Trim(value))
  }

  /** The checks `parseFloatSafe` makes on non-blank trimmed text. */
  function ParseTrimmed(trimmed: string): (r: SafeParse)
    ensures r.error.Some? ==> r.value == 1.0
    ensures r.error == Some(InvalidNumber) <==> !NumberPattern(trimmed)
    ensures r.error.None? ==> 0.0 < r.value <= MaxAmount && ParseFloat(trimmed) == Some(r.value)
  {
    if !NumberPattern(trimmed) then SafeParse(1.0, Some(InvalidNumber))
    else
      var parsed := ParseFloat(trimmed);
      if parsed.None? then SafeParse(1.0, Some(InvalidNumber))
      else if parsed.value <= 0.0 || parsed.value > MaxAmount then SafeParse(1.0, Some(OutOfRange))
      else SafeParse(parsed.value, None)
  }

  /** A non-blank amount is accepted exactly when it is written as an
      unsigned number whose value is in (0, 1,000,000], and then it is that
      value. */
  lemma AcceptedAmounts(value: string)
    requires Trim(value) != ""
    ensures var t := Trim(value);
      ParseFloatSafe(value).error.None? <==>
        NumberPattern(t) && t[0] != '-' && 0.0 < PatternValue(Unsigned(t)) <= MaxAmount
    ensures var t := Trim(value);
      ParseFloatSafe(value).error.None? ==> ParseFloatSafe(value).value == PatternValue(Unsigned(t))
  {
    TrimmedAccepted(Trim(value));
  }

  /** AcceptedAmounts on the trimmed text. */
  lemma TrimmedAccepted(t: string)
    requires t != ""
    ensures ParseTrimmed(t).error.None? <==>
      NumberPattern(t) && t[0] != '-' && 0.0 < PatternValue(Unsigned(t)) <= MaxAmount
    ensures ParseTrimmed(t).error.None? ==> ParseTrimmed(t).value == PatternValue(Unsigned(t))
  {
    if NumberPattern(t) {
      PatternParses(t);
      PatternValueNonNegative(Unsigned(t));
    }
  }

  /** The number pattern rules out `NaN`, so a pattern match fails only on
      the range check. */
  lemma PatternNeverNaN(value: string)
    requires Trim(value) != "" && NumberPattern(Trim(value))
    ensures ParseFloatSafe(value).error != Some(InvalidNumber)
    ensures ParseFloatSafe(value).error.Some? ==> ParseFloatSafe(value).error == Some(OutOfRange)
  {
    TrimmedNeverNaN(Trim(value));
  }

  lemma TrimmedNeverNaN(t: string)
    requires NumberPattern(t)
    ensures ParseTrimmed(t).error.Some? ==> ParseTrimmed(t).error == Some(OutOfRange)
  {
    PatternParses(t);
  }

  /** `handleSubmit`: the amount handed to `onSubmit`, or `None` when the
      parse reported an error and the dialog shows it instead. */
  function SubmittedAmount(amountText: string): (r: Option<real>)
    ensures r.None? <==> ParseFloatSafe(amountText).error.Some?
    ensures r.Some? ==> 0.0 < r.value <= MaxAmount
    ensures Trim(amountText) == "" ==> r == Some(1.0)
  {
    var parseResult := ParseFloatSafe(amountText);
    if parseResult.error.Some? then None else Some(parseResult.value)
  }
}
