/** The mobile app's component form: its validation and its empty state. */
module ComponentForm {
  import opened Wrappers
  import opened Text

  /** The form's fields; a missing name is `None`. */
  datatype ComponentFields = ComponentFields(
    componentName: Option<string>,
    amount: real,
    measure: string,
    supplier: string,
    cost: real,
    componentType: string,
    description: string,
    scannedBy: string,
    durationOfDevelopment: real,
    triggerMinAmount: real)

  const NameRequired := "Component name is required"
  const NegativeAmount := "Amount cannot be negative"
  const NegativeCost := "Cost cannot be negative"

  /** The name is present and not all whitespace. */
  predicate HasName(c: ComponentFields) {
    c.componentName.Some? && Trim(c.componentName.value) != ""
  }

  /** `validateComponentForm`: the first failing check in the order name,
      amount, cost gives the message; `None` is `null`. */
  function ValidateComponentForm(c: ComponentFields): (r: Option<string>)
    ensures r == Some(NameRequired) <==> !HasName(c)
    ensures r == Some(NegativeAmount) <==> HasName(c) && c.amount < 0.0
    ensures r == Some(NegativeCost) <==> HasName(c) && c.amount >= 0.0 && c.cost < 0.0
    ensures r.None? <==> HasName(c) && c.amount >= 0.0 && c.cost >= 0.0
  {
    if c.componentName.None? || Trim(c.componentName.value) == "" then Some(NameRequired)
    else if c.amount < 0.0 then Some(NegativeAmount)
    else if c.cost < 0.0 then Some(NegativeCost)
    else None
  }

  /** Only the name matters once it is missing. */
  lemma NameCheckedFirst(c: ComponentFields, amount: real, cost: real)
    requires !HasName(c)
    ensures ValidateComponentForm(c.(amount := amount, cost := cost)) == ValidateComponentForm(c)
  {
  }

  /** The scanner recorded when `resetComponentForm` is called without one. */
  const DefaultScannedBy := "mobile-app"

  /** `resetComponentForm`: an empty name, zero numbers, measure `amount`,
      type `component` and the given scanner; an omitted argument (`None`)
      takes the default `mobile-app`. */
  function ResetComponentForm(scannedBy: Option<string>): (r: ComponentFields)
    ensures r.componentName == Some("")
    ensures scannedBy.Some? ==> r.scannedBy == scannedBy.value
    ensures scannedBy.None? ==> r.scannedBy == DefaultScannedBy
    ensures r.amount == 0.0 && r.cost == 0.0 && r.durationOfDevelopment == 0.0 && r.triggerMinAmount == 0.0
    ensures r.measure == "amount" && r.componentType == "component"
    ensures r.supplier == "" && r.description == ""
  {
    var scanner := if scannedBy.Some? then scannedBy.value else DefaultScannedBy;
    ComponentFields(Some(""), 0.0, "amount", "", 0.0, "component", "", scanner, 0.0, 0.0)
  }

  /** Omitting the scanner is the same as passing `mobile-app`. */
  lemma DefaultScannerIsMobileApp()
    ensures ResetComponentForm(None) == ResetComponentForm(Some("mobile-app"))
  {
  }

  /** A freshly reset form fails validation on its name, and only the name
      stands between it and a valid form. */
  lemma ResetFormNeedsName(scannedBy: Option<string>, name: string)
    ensures ValidateComponentForm(ResetComponentForm(scannedBy)) == Some(NameRequired)
    ensures Trim(name) != "" ==>
      ValidateComponentForm(ResetComponentForm(scannedBy).(componentName := Some(name))).None?
  {
    assert Trim("") == "";
  }
}
