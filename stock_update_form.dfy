/** The admin dashboard's stock-update dialog: the checks `handleSubmit` runs
    before calling the server, and the preview of the resulting stock. */
module StockUpdateForm {
  import opened Wrappers
  import opened Text
  import opened Numbers
  import StockUpdate

  /** Why the dialog refuses to submit. */
  datatype Rejection = Blank | NotANumber | Overdraw | NegativeTotal

  /** What `handleSubmit` does: show an error, or call `onSubmit` with the
      parsed amount, the mode and the "Recorded By" text. */
  datatype Outcome = Rejected(reason: Rejection) | Submitted(amount: real, absolute: bool, scannedBy: string)

  function Abs(x: real): real { if x < 0.0 then -x else x }

  /** `handleSubmit`: a blank amount, an amount `parseFloat` cannot read, a
      subtraction larger than the current stock, and a negative new total are
      refused in that order; anything else is submitted as parsed. */
  function HandleSubmit(amount: string, absolute: bool, scannedBy: string, currentAmount: real): (r: Outcome)
    ensures r == Rejected(Blank) <==> Trim(amount) == ""
    ensures r == Rejected(NotANumber) <==> Trim(amount) != "" && ParseFloat(amount).None?
    ensures r.Submitted? ==> Trim(amount) != "" && ParseFloat(amount) == Some(r.amount) && r.absolute == absolute
    ensures r.Submitted? ==> r.scannedBy == scannedBy
    ensures r == Rejected(Overdraw) <==>
      (Trim(amount) != "" && ParseFloat(amount).Some? && !absolute &&
       ParseFloat(amount).value < 0.0 && -ParseFloat(amount).value > currentAmount)
    ensures r == Rejected(NegativeTotal) <==>
      (Trim(amount) != "" && ParseFloat(amount).Some? && absolute && ParseFloat(amount).value < 0.0)
  {
    if Trim(amount) == "" then Rejected(Blank)
    else
      var numAmount := ParseFloat(amount);
      if numAmount.None? then Rejected(NotANumber)
      else if !absolute && numAmount.value < 0.0 && Abs(numAmount.value) > currentAmount then Rejected(Overdraw)
      else if absolute && numAmount.value < 0.0 then Rejected(NegativeTotal)
      else Submitted(numAmount.value, absolute, scannedBy)
  }

  /** With a non-negative current stock, the dialog submits a readable amount
      exactly when the server would leave a non-negative stock: the two sides
      enforce the same condition. */
  lemma AgreesWithServer(amount: string, absolute: bool, scannedBy: string, currentAmount: real)
    requires currentAmount >= 0.0
    requires Trim(amount) != "" && ParseFloat(amount).Some?
    ensures HandleSubmit(amount, absolute, scannedBy, currentAmount).Submitted? <==>
      StockUpdate.NewAmount(currentAmount, ParseFloat(amount).value, absolute) >= 0.0
  {
  }

  /** Every submitted update leaves a non-negative stock, whatever the current
      stock. */
  lemma SubmittedIsNonNegative(amount: string, absolute: bool, scannedBy: string, currentAmount: real)
    requires HandleSubmit(amount, absolute, scannedBy, currentAmount).Submitted?
    requires currentAmount >= 0.0 || absolute
    ensures StockUpdate.NewAmount(currentAmount, HandleSubmit(amount, absolute, scannedBy, currentAmount).amount, absolute) >= 0.0
  {
  }

  /** The preview line: the typed text itself for a new total, otherwise the
      sum of the parsed amount and the current stock (`None` for `NaN`). */
  datatype Preview = Typed(text: string) | Sum(value: Option<real>)

  /** `calculatedAmount`. */
  function CalculatedAmount(amount: string, absolute: bool, currentAmount: real): (r: Preview)
    ensures absolute <==> r.Typed?
    ensures r.Typed? ==> r.text == amount
    ensures r.Sum? ==> (r.value.None? <==> ParseFloat(amount).None?)
    ensures r.Sum? && r.value.Some? ==> r.value.value == StockUpdate.NewAmount(currentAmount, ParseFloat(amount).value, false)
  {
    if absolute then Typed(amount)
    else
      var parsed := ParseFloat(amount);
      Sum(if parsed.None? then None else Some(parsed.value + currentAmount))
  }

  /** For a submitted relative update the preview shows the stock the server
      will write. */
  lemma PreviewMatchesSubmission(amount: string, scannedBy: string, currentAmount: real)
    requires HandleSubmit(amount, false, scannedBy, currentAmount).Submitted?
    ensures CalculatedAmount(amount, false, currentAmount) ==
      Sum(Some(StockUpdate.NewAmount(currentAmount, HandleSubmit(amount, false, scannedBy, currentAmount).amount, false)))
  {
  }
}
